/**
  The per-record bookkeeping of `_render_qweb_pdf_prepare_streams`: which
  records reuse a stored attachment, which are rendered, and whether the caller
  gets one stream per record or a single merged document under the key `False`.
  The host framework (ORM, attachment store, template renderer) and the PDF
  engine are abstract: they are fields of `Host`, and an engine output is
  denoted by the call that produced it.
 */
module PrepareStreams {
  import opened Outcomes
  import opened PyValues
  import opened PaperFormat
  import PaperCss
  import PlutoprintHelpers
  import Text

  type RecordId = int

  /** A stored attachment: its identity and raw content. */
  datatype Attachment = Attachment(id: int, raw: string, mimetype: string)

  /**
    A PDF stream: the content of a stored attachment; the output of the
    `call`-th engine call on an HTML document with a cookie header; or the
    document `_merge_streams` builds from several streams.
   */
  datatype Stream =
    | Stored(attachment: Attachment)
    | Rendered(call: nat, html: string, cookie: Option<string>)
    | Merged(parts: seq<Stream>)

  /** `{"stream": ..., "attachment": ...}`. */
  datatype Entry = Entry(stream: Option<Stream>, attachment: Option<Attachment>)

  /** One key of the ordered mapping from record ids to entries. */
  datatype Slot = Slot(id: RecordId, entry: Entry)

  /** The returned mapping: per record id, in order, or a single entry under the key `False`. */
  datatype Streams = ByRecord(slots: seq<Slot>) | Combined(entry: Entry)

  datatype ReportError =
    | EngineUnavailable
    | TemplateMissingIds(reportName: string)

  /** The report action: its name and its attachment settings (`attachment` is an expression, used as a flag). */
  datatype Report = Report(name: string, attachment: bool, attachmentUse: bool)

  /** What `_prepare_html` returns that the bookkeeping reads: the record id of each body, and the template's attributes. */
  datatype Prepared = Prepared(htmlIds: seq<Option<RecordId>>, specific: Dict)

  /** The collaborators and context of one call. */
  datatype Host = Host(
    engineAvailable: bool,
    noAttachmentContext: bool,
    landscapeContext: Option<bool>,
    retrieveAttachment: RecordId -> Option<Attachment>,
    renderHtml: seq<RecordId> -> string,
    prepareHtml: string -> Prepared,
    paper: Paper,
    cookie: Option<string>)

  // ---------------------------------------------------------------- ids

  /** The set of elements of a sequence (Python's `set(xs)`). */
  function Elements(xs: seq<RecordId>): set<RecordId>
  {
    set x | x in xs
  }

  predicate Distinct(xs: seq<RecordId>)
  {
    forall i, j :: 0 <= i < j < |xs| ==> xs[i] != xs[j]
  }

  /** `bool(res_ids and len(res_ids) != len(set(res_ids)))`. */
  predicate HasDuplicatedIds(ids: seq<RecordId>)
  {
    |ids| > 0 && |ids| != |Elements(ids)|
  }

  /** The position of the first occurrence of `x` in `xs`. */
  function IndexOf(xs: seq<RecordId>, x: RecordId): (k: nat)
    requires x in xs
    ensures k < |xs| && xs[k] == x && x !in xs[..k]
  {
    if xs[0] == x then 0 else 1 + IndexOf(xs[1..], x)
  }

  /** Each distinct element once, in order of first occurrence; a reference independent of the collecting loop. */
  function FirstOccurrences(xs: seq<RecordId>): seq<RecordId>
  {
    if |xs| == 0 then []
    else
      var init := xs[..|xs| - 1];
      FirstOccurrences(init) + (if xs[|xs| - 1] in init then [] else [xs[|xs| - 1]])
  }

  /** A sequence has as many distinct elements as entries exactly when it has no repeated entry. */
  lemma {:induction false} ElementsCount(xs: seq<RecordId>)
    ensures |Elements(xs)| <= |xs|
    ensures |Elements(xs)| == |xs| <==> Distinct(xs)
    decreases |xs|
  {
    if |xs| == 0 {
      assert Elements(xs) == {};
    } else {
      var init := xs[..|xs| - 1];
      var last := xs[|xs| - 1];
      assert xs == init + [last];
      ElementsCount(init);
      ElementsSnoc(init, last);
      DistinctSnoc(init, last);
      if last in init {
        assert Elements(xs) == Elements(init);
      } else {
        assert |Elements(xs)| == |Elements(init)| + 1;
      }
    }
  }

  /** Appending an entry adds exactly that entry to the elements. */
  lemma ElementsSnoc(init: seq<RecordId>, last: RecordId)
    ensures Elements(init + [last]) == Elements(init) + {last}
  {
  }

  /** Appending keeps a sequence free of repeats exactly when the new entry is new. */
  lemma DistinctSnoc(init: seq<RecordId>, last: RecordId)
    ensures Distinct(init + [last]) <==> Distinct(init) && last !in init
  {
    var xs := init + [last];
    if Distinct(xs) {
      forall i, j | 0 <= i < j < |init|
        ensures init[i] != init[j]
      {
        assert xs[i] == init[i] && xs[j] == init[j];
      }
      forall k | 0 <= k < |init|
        ensures init[k] != last
      {
        assert xs[k] == init[k] && xs[|init|] == last;
      }
    }
    if Distinct(init) && last !in init {
      forall i, j | 0 <= i < j < |xs|
        ensures xs[i] != xs[j]
      {
        assert xs[i] == init[i];
      }
    }
  }

  /** Duplicated ids, as the source counts them, are exactly a repeated entry. */
  lemma DuplicatedIdsMeansRepeat(ids: seq<RecordId>)
    ensures HasDuplicatedIds(ids) <==> !Distinct(ids)
  {
    ElementsCount(ids);
  }

  /** The first occurrences are distinct, cover every id, and keep the order in which ids first appear. */
  lemma {:induction false} FirstOccurrencesSpec(xs: seq<RecordId>)
    ensures Distinct(FirstOccurrences(xs))
    ensures forall x :: x in FirstOccurrences(xs) <==> x in xs
    ensures forall i, j :: 0 <= i < j < |FirstOccurrences(xs)| ==>
              IndexOf(xs, FirstOccurrences(xs)[i]) < IndexOf(xs, FirstOccurrences(xs)[j])
    decreases |xs|
  {
    if |xs| > 0 {
      var init := xs[..|xs| - 1];
      var last := xs[|xs| - 1];
      var fo := FirstOccurrences(init);
      FirstOccurrencesSpec(init);
      assert xs == init + [last];
      forall x | x in init
        ensures IndexOf(xs, x) == IndexOf(init, x)
      {
        IndexOfPrefix(init, [last], x);
      }
      if last !in init {
        NewElementComesLast(init, last);
        assert forall x :: x in fo ==> IndexOf(xs, x) < |init|;
      }
    }
  }

  /** An element new to a sequence first occurs where it is appended. */
  lemma NewElementComesLast(init: seq<RecordId>, last: RecordId)
    requires last !in init
    ensures IndexOf(init + [last], last) == |init|
  {
    assert (init + [last])[..|init|] == init;
  }

  /** Appending never moves the first occurrence of an element already present. */
  lemma {:induction false} IndexOfPrefix(a: seq<RecordId>, b: seq<RecordId>, x: RecordId)
    requires x in a
    ensures IndexOf(a + b, x) == IndexOf(a, x)
    decreases |a|
  {
    if a[0] != x {
      assert (a + b)[1..] == a[1..] + b;
      IndexOfPrefix(a[1..], b, x);
    }
  }

  /** A position holding `x` with no `x` before it is the first occurrence of `x`. */
  lemma {:induction false} IndexOfIsUnique(xs: seq<RecordId>, x: RecordId, k: nat)
    requires k < |xs| && xs[k] == x && x !in xs[..k]
    ensures IndexOf(xs, x) == k
    decreases k
  {
    if k > 0 {
      assert xs[0] in xs[..k];
      assert xs[1..][k - 1] == x;
      assert xs[1..][..k - 1] == xs[1..k];
      assert xs[1..k] == xs[..k][1..];
      IndexOfIsUnique(xs[1..], x, k - 1);
    }
  }

  /** An element absent from a prefix first occurs right after it. */
  lemma FirstOccurrenceAfter(prefix: seq<RecordId>, x: RecordId, rest: seq<RecordId>)
    requires x !in prefix
    ensures x in prefix + [x] + rest
    ensures IndexOf(prefix + [x] + rest, x) == |prefix|
  {
    var w := prefix + [x] + rest;
    assert w[|prefix|] == x;
    assert w[..|prefix|] == prefix;
    IndexOfIsUnique(w, x, |prefix|);
  }

  /** In a sequence without repeats, the first occurrence of the entry at `k` is `k`. */
  lemma IndexOfDistinct(xs: seq<RecordId>, k: nat)
    requires Distinct(xs) && k < |xs|
    ensures IndexOf(xs, xs[k]) == k
  {
    assert xs[k] !in xs[..k] by {
      forall a | 0 <= a < k
        ensures xs[..k][a] != xs[k]
      {
        assert xs[..k][a] == xs[a];
      }
    }
    IndexOfIsUnique(xs, xs[k], k);
  }

  /** Without repeated ids, the first occurrences are the ids themselves. */
  lemma {:induction false} FirstOccurrencesOfDistinct(xs: seq<RecordId>)
    requires Distinct(xs)
    ensures FirstOccurrences(xs) == xs
    decreases |xs|
  {
    if |xs| > 0 {
      var init := xs[..|xs| - 1];
      assert Distinct(init);
      FirstOccurrencesOfDistinct(init);
      assert xs[|xs| - 1] !in init by {
        forall k | 0 <= k < |init|
          ensures init[k] != xs[|xs| - 1]
        {
          assert init[k] == xs[k];
        }
      }
      assert xs == init + [xs[|xs| - 1]];
    }
  }

  // ---------------------------------------------------------------- collecting

  /** The entry of one record: a stored stream when attachments are looked up, found and reused. */
  function LookupEntry(id: RecordId, lookup: bool, attachmentUse: bool, retrieve: RecordId -> Option<Attachment>): (e: Entry)
    ensures !lookup ==> e == Entry(None, None)
    ensures lookup ==> e.attachment == retrieve(id)
    ensures e.stream.Some? <==> lookup && attachmentUse && retrieve(id).Some?
    ensures e.stream.Some? ==> e.stream == Some(Stored(retrieve(id).value))
  {
    if lookup then
      var attachment := retrieve(id);
      if attachment.Some? && attachmentUse then Entry(Some(Stored(attachment.value)), attachment)
      else Entry(None, attachment)
    else Entry(None, None)
  }

  function SlotIds(slots: seq<Slot>): (ids: seq<RecordId>)
    ensures |ids| == |slots| && forall j :: 0 <= j < |slots| ==> ids[j] == slots[j].id
  {
    seq(|slots|, j requires 0 <= j < |slots| => slots[j].id)
  }

  /** The loop over the browsed records: a record already entered is skipped. */
  function Collect(ids: seq<RecordId>, lookup: bool, attachmentUse: bool,
                   retrieve: RecordId -> Option<Attachment>, acc: seq<Slot>): seq<Slot>
    decreases |ids|
  {
    if |ids| == 0 then acc
    else if ids[0] in SlotIds(acc) then Collect(ids[1..], lookup, attachmentUse, retrieve, acc)
    else Collect(ids[1..], lookup, attachmentUse, retrieve, acc + [Slot(ids[0], LookupEntry(ids[0], lookup, attachmentUse, retrieve))])
  }

  /** One step of the loop on record `x`. */
  function CollectStep(acc: seq<Slot>, x: RecordId, lookup: bool, attachmentUse: bool,
                       retrieve: RecordId -> Option<Attachment>): seq<Slot>
  {
    if x in SlotIds(acc) then acc else acc + [Slot(x, LookupEntry(x, lookup, attachmentUse, retrieve))]
  }

  /** The slots for a sequence of distinct ids, each with its looked-up entry. */
  function Entries(xs: seq<RecordId>, lookup: bool, attachmentUse: bool,
                   retrieve: RecordId -> Option<Attachment>): (slots: seq<Slot>)
    ensures |slots| == |xs|
    ensures forall j :: 0 <= j < |xs| ==> slots[j] == Slot(xs[j], LookupEntry(xs[j], lookup, attachmentUse, retrieve))
  {
    seq(|xs|, j requires 0 <= j < |xs| => Slot(xs[j], LookupEntry(xs[j], lookup, attachmentUse, retrieve)))
  }

  lemma {:induction false} CollectSnoc(ids: seq<RecordId>, x: RecordId, lookup: bool, attachmentUse: bool,
                                       retrieve: RecordId -> Option<Attachment>, acc: seq<Slot>)
    ensures Collect(ids + [x], lookup, attachmentUse, retrieve, acc)
         == CollectStep(Collect(ids, lookup, attachmentUse, retrieve, acc), x, lookup, attachmentUse, retrieve)
    decreases |ids|
  {
    if |ids| == 0 {
      assert ids + [x] == [x];
      assert [x][1..] == [];
    } else {
      assert (ids + [x])[0] == ids[0];
      assert (ids + [x])[1..] == ids[1..] + [x];
      var next := CollectStep(acc, ids[0], lookup, attachmentUse, retrieve);
      CollectSnoc(ids[1..], x, lookup, attachmentUse, retrieve, next);
    }
  }

  /**
    The collected mapping holds each distinct id once, in first-occurrence
    order, with its looked-up entry.
   */
  lemma {:induction false} CollectIsFirstOccurrences(ids: seq<RecordId>, lookup: bool, attachmentUse: bool,
                                                     retrieve: RecordId -> Option<Attachment>)
    ensures Collect(ids, lookup, attachmentUse, retrieve, [])
         == Entries(FirstOccurrences(ids), lookup, attachmentUse, retrieve)
    decreases |ids|
  {
    if |ids| > 0 {
      var init := ids[..|ids| - 1];
      var last := ids[|ids| - 1];
      assert ids == init + [last];
      CollectSnoc(init, last, lookup, attachmentUse, retrieve, []);
      CollectIsFirstOccurrences(init, lookup, attachmentUse, retrieve);
      FirstOccurrencesSpec(init);
      var prev := Entries(FirstOccurrences(init), lookup, attachmentUse, retrieve);
      assert SlotIds(prev) == FirstOccurrences(init);
      assert last in SlotIds(prev) <==> last in init;
    }
  }

  /** The ids of the collected records that have no stream, in order. */
  function IdsWithoutStream(slots: seq<Slot>): seq<RecordId>
  {
    if |slots| == 0 then []
    else (if slots[0].entry.stream.None? then [slots[0].id] else []) + IdsWithoutStream(slots[1..])
  }

  lemma {:induction false} IdsWithoutStreamConcat(a: seq<Slot>, b: seq<Slot>)
    ensures IdsWithoutStream(a + b) == IdsWithoutStream(a) + IdsWithoutStream(b)
    decreases |a|
  {
    if |a| == 0 {
      assert a + b == b;
    } else {
      var head := if a[0].entry.stream.None? then [a[0].id] else [];
      assert (a + b)[0] == a[0];
      assert (a + b)[1..] == a[1..] + b;
      IdsWithoutStreamConcat(a[1..], b);
      assert IdsWithoutStream(a + b) == head + (IdsWithoutStream(a[1..]) + IdsWithoutStream(b));
      assert IdsWithoutStream(a) == head + IdsWithoutStream(a[1..]);
    }
  }

  lemma {:induction false} IdsWithoutStreamMembers(slots: seq<Slot>)
    ensures forall x :: x in IdsWithoutStream(slots) <==> exists j :: 0 <= j < |slots| && slots[j].id == x && slots[j].entry.stream.None?
    decreases |slots|
  {
    if |slots| > 0 {
      IdsWithoutStreamMembers(slots[1..]);
      forall x | x in IdsWithoutStream(slots)
        ensures exists j :: 0 <= j < |slots| && slots[j].id == x && slots[j].entry.stream.None?
      {
        if !(slots[0].id == x && slots[0].entry.stream.None?) {
          assert x in IdsWithoutStream(slots[1..]);
          var j :| 0 <= j < |slots[1..]| && slots[1..][j].id == x && slots[1..][j].entry.stream.None?;
          assert slots[j + 1] == slots[1..][j];
        }
      }
      forall x | exists j :: 0 <= j < |slots| && slots[j].id == x && slots[j].entry.stream.None?
        ensures x in IdsWithoutStream(slots)
      {
        var j :| 0 <= j < |slots| && slots[j].id == x && slots[j].entry.stream.None?;
        if j > 0 {
          assert slots[1..][j - 1] == slots[j];
        }
      }
    }
  }

  /** The number of records without a stream before position `j`: the rank of record `j` among them. */
  function MissingBefore(slots: seq<Slot>, j: nat): nat
    requires j <= |slots|
  {
    |IdsWithoutStream(slots[..j])|
  }

  /** A record of a sequence with distinct ids is the only one with its id. */
  lemma SlotIdsDistinct(slots: seq<Slot>, j: nat, k: nat)
    requires Distinct(SlotIds(slots)) && j < |slots| && k < |slots| && j != k
    ensures slots[j].id != slots[k].id
  {
    if j < k {
      assert SlotIds(slots)[j] != SlotIds(slots)[k];
    } else {
      assert SlotIds(slots)[k] != SlotIds(slots)[j];
    }
  }

  /** An id none of whose records lacks a stream is not among the ids without stream. */
  lemma {:induction false} AbsentWithoutStream(slots: seq<Slot>, x: RecordId)
    requires forall k :: 0 <= k < |slots| && slots[k].id == x ==> slots[k].entry.stream.Some?
    ensures x !in IdsWithoutStream(slots)
    decreases |slots|
  {
    if |slots| > 0 {
      assert forall k :: 0 <= k < |slots[1..]| ==> slots[1..][k] == slots[k + 1];
      AbsentWithoutStream(slots[1..], x);
    }
  }

  /** With no id left without stream, every record has one. */
  lemma {:induction false} NothingMissing(slots: seq<Slot>)
    requires |IdsWithoutStream(slots)| == 0
    ensures forall j :: 0 <= j < |slots| ==> slots[j].entry.stream.Some?
    decreases |slots|
  {
    if |slots| > 0 {
      NothingMissing(slots[1..]);
      assert forall j :: 0 < j < |slots| ==> slots[j] == slots[1..][j - 1];
    }
  }

  /** Splitting at a record without stream splits the ids without stream around its id. */
  lemma IdsWithoutStreamAt(slots: seq<Slot>, j: nat)
    requires j < |slots| && slots[j].entry.stream.None?
    ensures IdsWithoutStream(slots) == IdsWithoutStream(slots[..j]) + [slots[j].id] + IdsWithoutStream(slots[j + 1..])
  {
    assert slots == slots[..j] + slots[j..];
    IdsWithoutStreamConcat(slots[..j], slots[j..]);
    assert slots[j..][0] == slots[j];
    assert slots[j..][1..] == slots[j + 1..];
  }

  /** With distinct ids, no record before position `j` lacking a stream has the id of record `j`. */
  lemma NotMissingBefore(slots: seq<Slot>, j: nat)
    requires Distinct(SlotIds(slots)) && j < |slots|
    ensures slots[j].id !in IdsWithoutStream(slots[..j])
  {
    var before := slots[..j];
    forall k | 0 <= k < |before|
      ensures before[k].id != slots[j].id
    {
      assert before[k] == slots[k];
      SlotIdsDistinct(slots, k, j);
    }
    AbsentWithoutStream(before, slots[j].id);
  }

  /**
    With distinct ids, the record at position `j` that has no stream is the
    entry of rank MissingBefore(slots, j) in the list of ids without stream.
   */
  lemma RankOfMissing(slots: seq<Slot>, j: nat)
    requires Distinct(SlotIds(slots))
    requires j < |slots| && slots[j].entry.stream.None?
    ensures slots[j].id in IdsWithoutStream(slots)
    ensures IndexOf(IdsWithoutStream(slots), slots[j].id) == MissingBefore(slots, j)
  {
    IdsWithoutStreamAt(slots, j);
    NotMissingBefore(slots, j);
    FirstOccurrenceAfter(IdsWithoutStream(slots[..j]), slots[j].id, IdsWithoutStream(slots[j + 1..]));
  }

  /** Distinct slot ids give distinct ids without stream. */
  lemma {:induction false} IdsWithoutStreamDistinct(slots: seq<Slot>)
    requires Distinct(SlotIds(slots))
    ensures Distinct(IdsWithoutStream(slots))
    decreases |slots|
  {
    if |slots| > 0 {
      var tail := slots[1..];
      assert Distinct(SlotIds(tail)) by {
        forall i, j | 0 <= i < j < |tail|
          ensures SlotIds(tail)[i] != SlotIds(tail)[j]
        {
          SlotIdsDistinct(slots, i + 1, j + 1);
        }
      }
      IdsWithoutStreamDistinct(tail);
      IdsWithoutStreamMembers(tail);
      var rest := IdsWithoutStream(tail);
      assert slots[0].id !in rest by {
        forall k | 0 <= k < |tail|
          ensures tail[k].id != slots[0].id
        {
          SlotIdsDistinct(slots, k + 1, 0);
        }
      }
      if slots[0].entry.stream.None? {
        var w := IdsWithoutStream(slots);
        assert w == [slots[0].id] + rest;
        forall a, b | 0 <= a < b < |w|
          ensures w[a] != w[b]
        {
          if a == 0 {
            assert w[b] == rest[b - 1];
          } else {
            assert w[a] == rest[a - 1] && w[b] == rest[b - 1];
          }
        }
      }
    }
  }

  // ---------------------------------------------------------------- rendering and assignment

  /** The rendering loop of the per-record branch: one engine call, hence one stream, per id. */
  function RenderEach(rids: seq<RecordId>, html: string, cookie: Option<string>, acc: seq<Stream>): (r: seq<Stream>)
    ensures |r| == |acc| + |rids|
    ensures r[..|acc|] == acc
    ensures forall k :: |acc| <= k < |r| ==> r[k] == Rendered(k, html, cookie)
    decreases |rids|
  {
    if |rids| == 0 then acc
    else RenderEach(rids[1..], html, cookie, acc + [Rendered(|acc|, html, cookie)])
  }

  /** `collected_streams[rid]["stream"] = s`. */
  function SetStream(slots: seq<Slot>, rid: RecordId, s: Stream): (r: seq<Slot>)
    ensures |r| == |slots|
    ensures forall j :: 0 <= j < |slots| ==> r[j] == if slots[j].id == rid then Slot(rid, slots[j].entry.(stream := Some(s))) else slots[j]
  {
    seq(|slots|, j requires 0 <= j < |slots| =>
      if slots[j].id == rid then Slot(rid, slots[j].entry.(stream := Some(s))) else slots[j])
  }

  /** `for i, rid in enumerate(rids): collected_streams[rid]["stream"] = streams[i]`, from index `i` on. */
  function AssignStreams(slots: seq<Slot>, rids: seq<RecordId>, streams: seq<Stream>, i: nat): seq<Slot>
    requires |rids| == |streams| && i <= |rids|
    decreases |rids| - i
  {
    if i == |rids| then slots
    else AssignStreams(SetStream(slots, rids[i], streams[i]), rids, streams, i + 1)
  }

  /** Each record listed from index `i` on receives the stream of its position; every other slot is untouched. */
  lemma {:induction false} AssignStreamsEffect(slots: seq<Slot>, rids: seq<RecordId>, streams: seq<Stream>, i: nat)
    requires |rids| == |streams| && i <= |rids| && Distinct(rids)
    ensures var out := AssignStreams(slots, rids, streams, i);
      && |out| == |slots|
      && (forall j :: 0 <= j < |slots| ==> out[j].id == slots[j].id && out[j].entry.attachment == slots[j].entry.attachment)
      && (forall j :: 0 <= j < |slots| && slots[j].id in rids[i..] ==> out[j].entry.stream == Some(streams[IndexOf(rids, slots[j].id)]))
      && (forall j :: 0 <= j < |slots| && slots[j].id !in rids[i..] ==> out[j] == slots[j])
    decreases |rids| - i
  {
    if i < |rids| {
      var next := SetStream(slots, rids[i], streams[i]);
      AssignStreamsEffect(next, rids, streams, i + 1);
      var out := AssignStreams(slots, rids, streams, i);
      assert rids[i..] == [rids[i]] + rids[i + 1..];
      IndexOfDistinct(rids, i);
    }
  }

  /**
    The template-id fallback maps each id to the stream at its last position
    among the template's ids, as `{rid: idx for idx, rid in enumerate(ids)}` does.
   */
  function LastIndexOf(xs: seq<RecordId>, x: RecordId): (k: nat)
    requires x in xs
    ensures k < |xs| && xs[k] == x && x !in xs[k + 1..]
  {
    if xs[|xs| - 1] == x then |xs| - 1
    else
      var init := xs[..|xs| - 1];
      var k := LastIndexOf(init, x);
      assert xs[k + 1..] == init[k + 1..] + [xs[|xs| - 1]];
      k
  }

  function AssignByTemplateIds(slots: seq<Slot>, rids: seq<RecordId>, streams: seq<Stream>,
                               htmlIds: seq<RecordId>, i: nat): seq<Slot>
    requires |htmlIds| == |streams| && i <= |rids|
    requires Elements(rids) <= Elements(htmlIds)
    decreases |rids| - i
  {
    if i == |rids| then slots
    else
      assert rids[i] in Elements(rids);
      AssignByTemplateIds(SetStream(slots, rids[i], streams[LastIndexOf(htmlIds, rids[i])]), rids, streams, htmlIds, i + 1)
  }

  /** Each record listed from index `i` on receives the stream at its last template position; every other slot is untouched. */
  lemma {:induction false} AssignByTemplateIdsEffect(slots: seq<Slot>, rids: seq<RecordId>, streams: seq<Stream>,
                                                     htmlIds: seq<RecordId>, i: nat)
    requires |htmlIds| == |streams| && i <= |rids|
    requires Elements(rids) <= Elements(htmlIds)
    ensures var out := AssignByTemplateIds(slots, rids, streams, htmlIds, i);
      && |out| == |slots|
      && (forall j :: 0 <= j < |slots| ==> out[j].id == slots[j].id && out[j].entry.attachment == slots[j].entry.attachment)
      && (forall j :: 0 <= j < |slots| && slots[j].id in rids[i..] ==>
            slots[j].id in htmlIds && out[j].entry.stream == Some(streams[LastIndexOf(htmlIds, slots[j].id)]))
      && (forall j :: 0 <= j < |slots| && slots[j].id !in rids[i..] ==> out[j] == slots[j])
    decreases |rids| - i
  {
    if i < |rids| {
      assert rids[i] in Elements(rids);
      var next := SetStream(slots, rids[i], streams[LastIndexOf(htmlIds, rids[i])]);
      AssignByTemplateIdsEffect(next, rids, streams, htmlIds, i + 1);
      assert rids[i..] == [rids[i]] + rids[i + 1..];
      forall x | x in rids[i..]
        ensures x in htmlIds
      {
        assert x in Elements(rids);
      }
    }
  }

  /**
    The fallback the source keeps after the per-record assignment: when the
    template's ids are as many as the streams and name the same records, each
    record gets the stream at its last template position; otherwise the
    streams are merged into one document under the key `False`.
   */
  function TemplateIdsFallback(collected: seq<Slot>, withoutStream: seq<RecordId>, perBody: seq<Stream>,
                               htmlIds: seq<RecordId>): (r: Streams)
    ensures !(|htmlIds| == |perBody| && Elements(htmlIds) == Elements(withoutStream)) ==>
              r == Combined(Entry(Some(Merged(perBody)), None))
    ensures |htmlIds| == |perBody| && Elements(htmlIds) == Elements(withoutStream) ==>
              && r.ByRecord? && |r.slots| == |collected|
              && (forall j :: 0 <= j < |collected| ==>
                    r.slots[j].id == collected[j].id && r.slots[j].entry.attachment == collected[j].entry.attachment)
              && (forall j :: 0 <= j < |collected| && collected[j].id in withoutStream ==>
                    collected[j].id in htmlIds && r.slots[j].entry.stream == Some(perBody[LastIndexOf(htmlIds, collected[j].id)]))
              && (forall j :: 0 <= j < |collected| && collected[j].id !in withoutStream ==> r.slots[j] == collected[j])
  {
    if |htmlIds| == |perBody| && Elements(htmlIds) == Elements(withoutStream) then
      AssignByTemplateIdsEffect(collected, withoutStream, perBody, htmlIds, 0);
      assert withoutStream[0..] == withoutStream;
      ByRecord(AssignByTemplateIds(collected, withoutStream, perBody, htmlIds, 0))
    else Combined(Entry(Some(Merged(perBody)), None))
  }

  // ---------------------------------------------------------------- the operation

  datatype Request = Request(report: Report, resIds: seq<RecordId>)

  /** Stored attachments are looked up only without duplicated ids, with attachments enabled and not disabled by the context. */
  predicate LookupEnabled(req: Request, host: Host)
  {
    !HasDuplicatedIds(req.resIds) && req.report.attachment && !host.noAttachmentContext
  }

  function Collected(req: Request, host: Host): seq<Slot>
  {
    Collect(req.resIds, LookupEnabled(req, host), req.report.attachmentUse, host.retrieveAttachment, [])
  }

  function WithoutStream(req: Request, host: Host): seq<RecordId>
  {
    IdsWithoutStream(Collected(req, host))
  }

  /** `need_engine`: no ids at all, or some collected record without a stream. */
  predicate NeedsEngine(req: Request, host: Host)
  {
    |req.resIds| == 0 || |WithoutStream(req, host)| > 0
  }

  /** The HTML rendered for the records that need the engine (all ids when they repeat). */
  function FullHtml(req: Request, host: Host): string
  {
    host.renderHtml(if HasDuplicatedIds(req.resIds) then req.resIds else WithoutStream(req, host))
  }

  /**
    `[x for x in html_ids if x]`: the present, non-zero ids, in their order and
    with their repeats; `NonEmptyIdsAppend` states that the filter works position
    by position.
   */
  function NonEmptyIds(htmlIds: seq<Option<RecordId>>): (r: seq<RecordId>)
    ensures forall x :: x in r <==> Some(x) in htmlIds && x != 0
    ensures |r| <= |htmlIds|
    ensures (forall i :: 0 <= i < |htmlIds| ==> htmlIds[i].Some? && htmlIds[i].value != 0) ==>
              |r| == |htmlIds| && forall i :: 0 <= i < |r| ==> htmlIds[i] == Some(r[i])
  {
    if |htmlIds| == 0 then []
    else
      (if htmlIds[0].Some? && htmlIds[0].value != 0 then [htmlIds[0].value] else [])
      + NonEmptyIds(htmlIds[1..])
  }

  /** Filtering two lists one after the other is filtering their concatenation. */
  lemma {:induction false} NonEmptyIdsAppend(a: seq<Option<RecordId>>, b: seq<Option<RecordId>>)
    ensures NonEmptyIds(a + b) == NonEmptyIds(a) + NonEmptyIds(b)
    decreases |a|
  {
    if |a| > 0 {
      var head: seq<RecordId> := if a[0].Some? && a[0].value != 0 then [a[0].value] else [];
      var restA, restB := NonEmptyIds(a[1..]), NonEmptyIds(b);
      NonEmptyIdsAppend(a[1..], b);
      ConcatTail(a, b);
      assert NonEmptyIds(a + b) == head + (restA + restB);
      assert NonEmptyIds(a) == head + restA;
      assert head + (restA + restB) == (head + restA) + restB;
    } else {
      ConcatEmpty(a, b);
    }
  }

  /** Dropping the first element of a concatenation with a non-empty left part. */
  lemma ConcatTail(a: seq<Option<RecordId>>, b: seq<Option<RecordId>>)
    requires |a| > 0
    ensures (a + b)[0] == a[0] && (a + b)[1..] == a[1..] + b
  {
  }

  lemma ConcatEmpty(a: seq<Option<RecordId>>, b: seq<Option<RecordId>>)
    requires |a| == 0
    ensures a + b == b
  {
  }

  function TemplateIds(req: Request, host: Host): seq<RecordId>
  {
    NonEmptyIds(host.prepareHtml(FullHtml(req, host)).htmlIds)
  }

  /** The template cannot be split into per-record files: its record markers differ from the records to render. */
  predicate TemplateMismatch(req: Request, host: Host)
  {
    !HasDuplicatedIds(req.resIds) && req.report.attachment
    && Elements(WithoutStream(req, host)) != Elements(TemplateIds(req, host))
  }

  /** The document handed to the engine: the full HTML with the paper-format stylesheet after its `<head>`. */
  function EngineDocument(req: Request, host: Host): string
  {
    var html := FullHtml(req, host);
    var css := PaperCss.PaperformatToCssRules(host.paper, host.prepareHtml(html).specific, host.landscapeContext);
    PlutoprintHelpers.InjectCss(html, [css])
  }

  /**
    The document sent to the engine is the full HTML with the paper-format
    stylesheet spliced in right after its first `<head>`, or the HTML as it is
    when it has no `<head>`.
   */
  lemma EngineDocumentCarriesPaperCss(req: Request, host: Host)
    ensures var html := FullHtml(req, host);
            var css := PaperCss.PaperformatToCssRules(host.paper, host.prepareHtml(html).specific, host.landscapeContext);
            var cut := Text.Find(html, PlutoprintHelpers.HeadMarker) + |PlutoprintHelpers.HeadMarker|;
      && (Text.Contains(html, PlutoprintHelpers.HeadMarker) ==>
            EngineDocument(req, host) == html[..cut] + "<style>" + css + "</style>" + html[cut..])
      && (!Text.Contains(html, PlutoprintHelpers.HeadMarker) ==> EngineDocument(req, host) == html)
  {
    var html := FullHtml(req, host);
    var css := PaperCss.PaperformatToCssRules(host.paper, host.prepareHtml(html).specific, host.landscapeContext);
    if Text.Contains(html, PlutoprintHelpers.HeadMarker) {
      PlutoprintHelpers.InjectSingleStylesheet(html, css);
    }
  }

  /** `_render_qweb_pdf_prepare_streams(report_ref, data, res_ids)`. */
  function PrepareStreams(req: Request, host: Host): (r: Result<Streams, ReportError>)
    ensures r == Failure(EngineUnavailable) <==> !host.engineAvailable
    ensures r == Failure(TemplateMissingIds(req.report.name))
        <==> host.engineAvailable && NeedsEngine(req, host) && TemplateMismatch(req, host)
  {
    if !host.engineAvailable then Failure(EngineUnavailable)
    else
      var duplicated := HasDuplicatedIds(req.resIds);
      var collected := Collected(req, host);
      var withoutStream := IdsWithoutStream(collected);
      if !NeedsEngine(req, host) then Success(ByRecord(collected))
      else if TemplateMismatch(req, host) then Failure(TemplateMissingIds(req.report.name))
      else
        var doc := EngineDocument(req, host);
        if duplicated || |req.resIds| == 0 then
          Success(Combined(Entry(Some(Merged([Rendered(0, doc, host.cookie)])), None)))
        else
          var perBody := RenderEach(withoutStream, doc, host.cookie, []);
          if |perBody| == |withoutStream| then
            Success(ByRecord(AssignStreams(collected, withoutStream, perBody, 0)))
          else
            Success(TemplateIdsFallback(collected, withoutStream, perBody, TemplateIds(req, host)))
  }

  // ---------------------------------------------------------------- properties

  /** A stored stream is available for a record: attachments are looked up, reused, and one is found. */
  predicate HasStoredStream(req: Request, host: Host, id: RecordId)
  {
    LookupEnabled(req, host) && req.report.attachmentUse && host.retrieveAttachment(id).Some?
  }

  /**
    Each distinct id is entered once, in first-occurrence order; with repeated
    ids no attachment is looked up at all.
   */
  lemma CollectedRecords(req: Request, host: Host)
    ensures SlotIds(Collected(req, host)) == FirstOccurrences(req.resIds)
    ensures Distinct(SlotIds(Collected(req, host)))
    ensures HasDuplicatedIds(req.resIds) ==> forall j :: 0 <= j < |Collected(req, host)| ==> Collected(req, host)[j].entry == Entry(None, None)
    ensures forall j :: 0 <= j < |Collected(req, host)| ==>
              (Collected(req, host)[j].entry.stream.Some? <==> HasStoredStream(req, host, Collected(req, host)[j].id))
  {
    CollectIsFirstOccurrences(req.resIds, LookupEnabled(req, host), req.report.attachmentUse, host.retrieveAttachment);
    FirstOccurrencesSpec(req.resIds);
  }

  /** The engine is needed exactly when there are no ids or some id has no stored stream. */
  lemma EngineNeededExactly(req: Request, host: Host)
    ensures NeedsEngine(req, host) <==> |req.resIds| == 0 || exists id :: id in req.resIds && !HasStoredStream(req, host, id)
  {
    var collected := Collected(req, host);
    CollectedRecords(req, host);
    FirstOccurrencesSpec(req.resIds);
    IdsWithoutStreamMembers(collected);
    if exists id :: id in req.resIds && !HasStoredStream(req, host, id) {
      var id :| id in req.resIds && !HasStoredStream(req, host, id);
      assert id in SlotIds(collected);
      var j :| 0 <= j < |collected| && SlotIds(collected)[j] == id;
      assert id in IdsWithoutStream(collected);
    }
    if |WithoutStream(req, host)| > 0 {
      var x := WithoutStream(req, host)[0];
      assert x in IdsWithoutStream(collected);
      var j :| 0 <= j < |collected| && collected[j].id == x && collected[j].entry.stream.None?;
      assert x in FirstOccurrences(req.resIds) by {
        assert SlotIds(collected)[j] == x;
      }
    }
  }

  /** The ids without a stream are distinct and are exactly the requested ids that have no stored stream. */
  lemma WithoutStreamMembers(req: Request, host: Host)
    ensures Distinct(WithoutStream(req, host))
    ensures forall x :: x in WithoutStream(req, host) <==> x in req.resIds && !HasStoredStream(req, host, x)
  {
    var collected := Collected(req, host);
    CollectedRecords(req, host);
    FirstOccurrencesSpec(req.resIds);
    IdsWithoutStreamMembers(collected);
    IdsWithoutStreamDistinct(collected);
    forall x | x in req.resIds && !HasStoredStream(req, host, x)
      ensures x in WithoutStream(req, host)
    {
      assert x in SlotIds(collected);
      var j :| 0 <= j < |collected| && SlotIds(collected)[j] == x;
      assert collected[j].id == x && collected[j].entry.stream.None?;
    }
    forall x | x in WithoutStream(req, host)
      ensures x in req.resIds && !HasStoredStream(req, host, x)
    {
      var j :| 0 <= j < |collected| && collected[j].id == x && collected[j].entry.stream.None?;
      assert SlotIds(collected)[j] == x;
    }
  }

  /**
    The full HTML is rendered once for a list of ids: every requested id, in
    order and with its repeats, when ids repeat; otherwise each requested id
    without a stored stream, once.
   */
  lemma FullHtmlRenders(req: Request, host: Host) returns (ids: seq<RecordId>)
    ensures FullHtml(req, host) == host.renderHtml(ids)
    ensures HasDuplicatedIds(req.resIds) ==> ids == req.resIds
    ensures !HasDuplicatedIds(req.resIds) ==>
              Distinct(ids) && forall x :: x in ids <==> x in req.resIds && !HasStoredStream(req, host, x)
  {
    ids := if HasDuplicatedIds(req.resIds) then req.resIds else WithoutStream(req, host);
    WithoutStreamMembers(req, host);
  }

  /** When every id already has a stored stream, the collected mapping is returned and nothing is rendered. */
  lemma StoredStreamsAreReused(req: Request, host: Host)
    requires host.engineAvailable && |req.resIds| > 0
    requires forall id :: id in req.resIds ==> HasStoredStream(req, host, id)
    ensures PrepareStreams(req, host) == Success(ByRecord(Collected(req, host)))
    ensures forall j :: 0 <= j < |Collected(req, host)| ==>
              var id := Collected(req, host)[j].id;
              host.retrieveAttachment(id).Some? && Collected(req, host)[j].entry.stream == Some(Stored(host.retrieveAttachment(id).value))
  {
    var collected := Collected(req, host);
    CollectIsFirstOccurrences(req.resIds, LookupEnabled(req, host), req.report.attachmentUse, host.retrieveAttachment);
    FirstOccurrencesSpec(req.resIds);
    var fo := FirstOccurrences(req.resIds);
    forall j | 0 <= j < |collected|
      ensures host.retrieveAttachment(collected[j].id).Some?
      ensures collected[j].entry.stream == Some(Stored(host.retrieveAttachment(collected[j].id).value))
    {
      assert collected[j].id == fo[j];
      assert fo[j] in req.resIds;
    }
    if |IdsWithoutStream(collected)| > 0 {
      var x := IdsWithoutStream(collected)[0];
      AbsentWithoutStream(collected, x);
      assert false;
    }
    assert !NeedsEngine(req, host);
  }

  /** Repeated ids or no ids give exactly one entry, under the key `False`, with no attachment. */
  lemma DuplicatedOrEmptyIdsAreMerged(req: Request, host: Host)
    requires host.engineAvailable && (HasDuplicatedIds(req.resIds) || |req.resIds| == 0)
    requires !TemplateMismatch(req, host)
    ensures PrepareStreams(req, host)
         == Success(Combined(Entry(Some(Merged([Rendered(0, EngineDocument(req, host), host.cookie)])), None)))
  {
    if HasDuplicatedIds(req.resIds) {
      CollectedRecords(req, host);
      var collected := Collected(req, host);
      assert |collected| > 0 by {
        FirstOccurrencesSpec(req.resIds);
        assert req.resIds[0] in FirstOccurrences(req.resIds);
      }
      assert collected[0].entry.stream.None?;
      assert IdsWithoutStream(collected)[0] == collected[0].id;
    }
  }

  /** The rendering loop yields exactly one stream per id lacking one, so the template-id fallback is never reached. */
  lemma PerRecordFallbackUnreachable(req: Request, host: Host)
    requires host.engineAvailable && !HasDuplicatedIds(req.resIds) && |req.resIds| > 0
    requires NeedsEngine(req, host) && !TemplateMismatch(req, host)
    ensures |RenderEach(WithoutStream(req, host), EngineDocument(req, host), host.cookie, [])| == |WithoutStream(req, host)|
    ensures PrepareStreams(req, host) == Success(ByRecord(AssignStreams(Collected(req, host), WithoutStream(req, host),
                                                 RenderEach(WithoutStream(req, host), EngineDocument(req, host), host.cookie, []), 0)))
  {
  }

  /**
    Filling the records without stream from one engine call each: ids and
    attachments stay, stored streams stay, and the record of rank k among those
    without a stream receives the stream of the k-th call.
   */
  lemma FillMissingStreams(collected: seq<Slot>, doc: string, cookie: Option<string>)
    requires Distinct(SlotIds(collected))
    ensures var wo := IdsWithoutStream(collected);
            var out := AssignStreams(collected, wo, RenderEach(wo, doc, cookie, []), 0);
      && SlotIds(out) == SlotIds(collected)
      && (forall j :: 0 <= j < |out| ==> out[j].entry.attachment == collected[j].entry.attachment)
      && (forall j :: 0 <= j < |out| && collected[j].entry.stream.Some? ==> out[j] == collected[j])
      && (forall j :: 0 <= j < |out| && collected[j].entry.stream.None? ==>
            out[j].entry.stream == Some(Rendered(MissingBefore(collected, j), doc, cookie)))
  {
    var wo := IdsWithoutStream(collected);
    var perBody := RenderEach(wo, doc, cookie, []);
    IdsWithoutStreamDistinct(collected);
    AssignStreamsEffect(collected, wo, perBody, 0);
    var out := AssignStreams(collected, wo, perBody, 0);
    assert wo[0..] == wo;
    forall j | 0 <= j < |out| && collected[j].entry.stream.None?
      ensures out[j].entry.stream == Some(Rendered(MissingBefore(collected, j), doc, cookie))
    {
      RankOfMissing(collected, j);
    }
    forall j | 0 <= j < |out| && collected[j].entry.stream.Some?
      ensures out[j] == collected[j]
    {
      forall k | 0 <= k < |collected| && k != j
        ensures collected[k].id != collected[j].id
      {
        SlotIdsDistinct(collected, k, j);
      }
      AbsentWithoutStream(collected, collected[j].id);
    }
  }

  /**
    Without repeated ids the result is the collected mapping with the records
    lacking a stream filled in, one engine call each (none when all are stored).
   */
  lemma PerRecordResult(req: Request, host: Host)
    requires host.engineAvailable && !HasDuplicatedIds(req.resIds) && |req.resIds| > 0
    requires !TemplateMismatch(req, host)
    ensures PrepareStreams(req, host)
         == Success(ByRecord(AssignStreams(Collected(req, host), WithoutStream(req, host),
                             RenderEach(WithoutStream(req, host), EngineDocument(req, host), host.cookie, []), 0)))
  {
    if !NeedsEngine(req, host) {
      assert WithoutStream(req, host) == [];
    }
  }

  /**
    Without repeated ids, the result keeps every id in order with its
    attachment; ids with a stored stream keep it, and the id of rank k among
    those without one receives the stream of the k-th engine call.
   */
  lemma PerRecordStreams(req: Request, host: Host)
    requires host.engineAvailable && !HasDuplicatedIds(req.resIds) && |req.resIds| > 0
    requires !TemplateMismatch(req, host)
    ensures PrepareStreams(req, host).Success? && PrepareStreams(req, host).value.ByRecord?
    ensures var out := PrepareStreams(req, host).value.slots;
            var collected := Collected(req, host);
      && SlotIds(out) == req.resIds
      && |out| == |collected|
      && (forall j :: 0 <= j < |out| ==> out[j].entry.attachment == collected[j].entry.attachment)
      && (forall j :: 0 <= j < |out| && collected[j].entry.stream.Some? ==> out[j] == collected[j])
      && (forall j :: 0 <= j < |out| && collected[j].entry.stream.None? ==>
            out[j].entry.stream == Some(Rendered(MissingBefore(collected, j), EngineDocument(req, host), host.cookie)))
  {
    CollectedRecords(req, host);
    DuplicatedIdsMeansRepeat(req.resIds);
    FirstOccurrencesOfDistinct(req.resIds);
    PerRecordResult(req, host);
    FillMissingStreams(Collected(req, host), EngineDocument(req, host), host.cookie);
  }

  /**
    One record, attachments off, a working engine: the mapping has the single
    key 1, and its stream is the first engine call on the full document.
   */
  lemma SingleRecordWithoutAttachment(name: string, host: Host)
    requires host.engineAvailable
    ensures PrepareStreams(Request(Report(name, false, false), [1]), host)
         == Success(ByRecord([Slot(1, Entry(Some(Rendered(0, EngineDocument(Request(Report(name, false, false), [1]), host), host.cookie)), None))]))
  {
    var req := Request(Report(name, false, false), [1]);
    SingleRecordBookkeeping(name, host);
    PerRecordResult(req, host);
    FillSingleRecord(1, EngineDocument(req, host), host.cookie);
  }

  /** Without attachment lookup, the one record is collected with no stream and is the one record to render. */
  lemma SingleRecordBookkeeping(name: string, host: Host)
    ensures !HasDuplicatedIds([1])
    ensures Collected(Request(Report(name, false, false), [1]), host) == [Slot(1, Entry(None, None))]
    ensures WithoutStream(Request(Report(name, false, false), [1]), host) == [1]
  {
    var req := Request(Report(name, false, false), [1]);
    assert Elements([1]) == {1};
    assert !LookupEnabled(req, host);
    CollectIsFirstOccurrences([1], false, false, host.retrieveAttachment);
    FirstOccurrencesOfDistinct([1]);
    assert [Slot(1, Entry(None, None))][1..] == [];
  }

  /** A single record without stream receives the first engine call. */
  lemma FillSingleRecord(id: RecordId, doc: string, cookie: Option<string>)
    ensures AssignStreams([Slot(id, Entry(None, None))], [id], RenderEach([id], doc, cookie, []), 0)
         == [Slot(id, Entry(Some(Rendered(0, doc, cookie)), None))]
  {
    var collected := [Slot(id, Entry(None, None))];
    var streams := RenderEach([id], doc, cookie, []);
    assert streams == [Rendered(0, doc, cookie)];
    var filled := SetStream(collected, id, streams[0]);
    assert filled == [Slot(id, Entry(Some(Rendered(0, doc, cookie)), None))];
    assert AssignStreams(collected, [id], streams, 0) == AssignStreams(filled, [id], streams, 1);
  }
}
