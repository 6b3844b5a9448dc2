/** `process_pdf` of pdf_processor.py: the per-page loop that turns the
    text of each page into chunks, each paired with a metadata record
    naming its 1-based page number and the uploaded file's name.

    The PDF parser is abstracted: a document is the sequence of the texts
    its pages yield, or `None` when the upload cannot be opened. The text
    splitter is an arbitrary function from a page's text to its chunks. */
module PdfProcessor {
  import opened Wrappers
  import Text

  /** The `{"page_number": ..., "source": ...}` record of one chunk. */
  datatype Meta = Meta(pageNumber: nat, source: string)

  /** The pair `(all_chunks, all_metadata)`. */
  datatype Processed = Processed(chunks: seq<string>, metadata: seq<Meta>)

  /** What one page contributes: nothing when its text is empty, the
      splitter's output otherwise. */
  function PageChunks(text: string, split: string -> seq<string>): seq<string> {
    if |text| > 0 then split(text) else []
  }

  /** `count` copies of the metadata record of page `page`. */
  function PageMetas(page: nat, source: string, count: nat): (r: seq<Meta>)
    ensures |r| == count
    ensures forall i :: 0 <= i < count ==> r[i] == Meta(page, source)
  {
    if count == 0 then [] else PageMetas(page, source, count - 1) + [Meta(page, source)]
  }

  /** Reference definition: the chunks of the first `n` pages, in page
      order and, within a page, in splitter order. */
  function ChunksOf(pages: seq<string>, n: nat, split: string -> seq<string>): seq<string>
    requires n <= |pages|
  {
    if n == 0 then []
    else ChunksOf(pages, n - 1, split) + PageChunks(pages[n - 1], split)
  }

  /** Reference definition: the metadata of the first `n` pages' chunks. */
  function MetasOf(pages: seq<string>, n: nat, source: string, split: string -> seq<string>): seq<Meta>
    requires n <= |pages|
  {
    if n == 0 then []
    else MetasOf(pages, n - 1, source, split) + PageMetas(n, source, |PageChunks(pages[n - 1], split)|)
  }

  /** The metadata records are well formed: one per chunk, each naming the
      file and a page among the first `n`, in non-decreasing page order. */
  predicate WellFormed(chunks: seq<string>, metas: seq<Meta>, n: nat, source: string) {
    && |chunks| == |metas|
    && (forall i :: 0 <= i < |metas| ==> 1 <= metas[i].pageNumber <= n && metas[i].source == source)
    && (forall i, j :: 0 <= i <= j < |metas| ==> metas[i].pageNumber <= metas[j].pageNumber)
  }

  lemma {:induction false} ReferenceWellFormed(pages: seq<string>, n: nat, source: string, split: string -> seq<string>)
    requires n <= |pages|
    ensures WellFormed(ChunksOf(pages, n, split), MetasOf(pages, n, source, split), n, source)
  {
    if n > 0 {
      ReferenceWellFormed(pages, n - 1, source, split);
      var before := MetasOf(pages, n - 1, source, split);
      var added := PageMetas(n, source, |PageChunks(pages[n - 1], split)|);
      var metas := before + added;
      forall i | 0 <= i < |metas|
        ensures 1 <= metas[i].pageNumber <= n && metas[i].source == source
      {
        if i >= |before| {
          assert metas[i] == added[i - |before|];
        }
      }
      forall i, j | 0 <= i <= j < |metas|
        ensures metas[i].pageNumber <= metas[j].pageNumber
      {
        if j >= |before| {
          assert metas[j] == added[j - |before|];
        }
      }
    }
  }

  /** `process_pdf`: `None` stands for the `(None, None)` returned when the
      document cannot be read. */
  method ProcessPdf(doc: Option<seq<string>>, source: string, split: string -> seq<string>)
    returns (r: Option<Processed>)
    ensures r.None? <==> doc.None?
    ensures r.Some? ==> WellFormed(r.value.chunks, r.value.metadata, |doc.value|, source)
    ensures r.Some? ==> r.value.chunks == ChunksOf(doc.value, |doc.value|, split)
    ensures r.Some? ==> r.value.metadata == MetasOf(doc.value, |doc.value|, source, split)
  {
    if doc.None? {
      return None;
    }
    var pages := doc.value;
    var chunks: seq<string> := [];
    var metadata: seq<Meta> := [];
    var i := 0;
    while i < |pages|
      invariant 0 <= i <= |pages|
      invariant chunks == ChunksOf(pages, i, split)
      invariant metadata == MetasOf(pages, i, source, split)
    {
      var text := pages[i];
      if |text| > 0 {
        chunks, metadata := AddPage(chunks, metadata, split(text), i + 1, source);
      }
      i := i + 1;
    }
    ReferenceWellFormed(pages, |pages|, source, split);
    return Some(Processed(chunks, metadata));
  }

  /** The inner loop of `process_pdf`: every chunk of one page is appended,
      with a metadata record naming that page. */
  method AddPage(chunks: seq<string>, metadata: seq<Meta>, pageChunks: seq<string>, page: nat, source: string)
    returns (chunks': seq<string>, metadata': seq<Meta>)
    ensures chunks' == chunks + pageChunks
    ensures metadata' == metadata + PageMetas(page, source, |pageChunks|)
  {
    chunks', metadata' := chunks, metadata;
    var j := 0;
    while j < |pageChunks|
      invariant 0 <= j <= |pageChunks|
      invariant chunks' == chunks + pageChunks[..j]
      invariant metadata' == metadata + PageMetas(page, source, j)
    {
      assert pageChunks[..j + 1] == pageChunks[..j] + [pageChunks[j]];
      chunks' := chunks' + [pageChunks[j]];
      metadata' := metadata' + [Meta(page, source)];
      j := j + 1;
    }
    assert pageChunks[..|pageChunks|] == pageChunks;
  }

  /** The chunks whose metadata names page `page`, in order. */
  function OnPage(chunks: seq<string>, metas: seq<Meta>, page: nat): (r: seq<string>)
    requires |chunks| == |metas|
    ensures |r| <= |chunks|
  {
    if |chunks| == 0 then []
    else (if metas[0].pageNumber == page then [chunks[0]] else []) + OnPage(chunks[1..], metas[1..], page)
  }

  lemma {:induction false} OnPageAppend(a: seq<string>, ma: seq<Meta>, b: seq<string>, mb: seq<Meta>, page: nat)
    requires |a| == |ma| && |b| == |mb|
    ensures OnPage(a + b, ma + mb, page) == OnPage(a, ma, page) + OnPage(b, mb, page)
    decreases |a|
  {
    if |a| == 0 {
      assert a + b == b && ma + mb == mb;
    } else {
      var head := if ma[0].pageNumber == page then [a[0]] else [];
      assert OnPage(a + b, ma + mb, page) == head + OnPage(a[1..] + b, ma[1..] + mb, page) by {
        assert (a + b)[0] == a[0] && (ma + mb)[0] == ma[0];
        assert (a + b)[1..] == a[1..] + b && (ma + mb)[1..] == ma[1..] + mb;
      }
      assert OnPage(a[1..] + b, ma[1..] + mb, page) == OnPage(a[1..], ma[1..], page) + OnPage(b, mb, page) by {
        OnPageAppend(a[1..], ma[1..], b, mb, page);
      }
      assert head + (OnPage(a[1..], ma[1..], page) + OnPage(b, mb, page))
          == (head + OnPage(a[1..], ma[1..], page)) + OnPage(b, mb, page);
    }
  }

  /** A block of chunks all labelled with one page is kept whole or
      dropped whole. */
  lemma {:induction false} OnPageUniform(xs: seq<string>, owner: nat, source: string, page: nat)
    ensures OnPage(xs, PageMetas(owner, source, |xs|), page) == (if owner == page then xs else [])
    decreases |xs|
  {
    if |xs| > 0 {
      var metas := PageMetas(owner, source, |xs|);
      assert metas[1..] == PageMetas(owner, source, |xs| - 1);
      OnPageUniform(xs[1..], owner, source, page);
      assert [xs[0]] + xs[1..] == xs;
    }
  }

  /** One metadata record per chunk. */
  lemma {:induction false} ReferenceAligned(pages: seq<string>, n: nat, source: string, split: string -> seq<string>)
    requires n <= |pages|
    ensures |ChunksOf(pages, n, split)| == |MetasOf(pages, n, source, split)|
  {
    if n > 0 {
      ReferenceAligned(pages, n - 1, source, split);
    }
  }

  /** The first `n` pages hold no chunk of a later page. */
  lemma LaterPageAbsent(pages: seq<string>, n: nat, source: string, split: string -> seq<string>, page: nat)
    requires n < page <= |pages|
    ensures |ChunksOf(pages, n, split)| == |MetasOf(pages, n, source, split)|
    ensures OnPage(ChunksOf(pages, n, split), MetasOf(pages, n, source, split), page) == []
  {
    ReferenceWellFormed(pages, n, source, split);
    OnPageNone(ChunksOf(pages, n, split), MetasOf(pages, n, source, split), page);
  }

  /** No chunk is kept for a page no metadata record names. */
  lemma {:induction false} OnPageNone(chunks: seq<string>, metas: seq<Meta>, page: nat)
    requires |chunks| == |metas|
    requires forall i :: 0 <= i < |metas| ==> metas[i].pageNumber != page
    ensures OnPage(chunks, metas, page) == []
    decreases |chunks|
  {
    if |chunks| > 0 {
      OnPageNone(chunks[1..], metas[1..], page);
    }
  }

  /** Page by page, the output is exactly what the splitter made of that
      page's text, nothing added, dropped or reordered; an empty page
      contributes nothing. */
  lemma {:induction false} PageContribution(pages: seq<string>, n: nat, source: string, split: string -> seq<string>, page: nat)
    requires 1 <= page <= n <= |pages|
    ensures |ChunksOf(pages, n, split)| == |MetasOf(pages, n, source, split)|
    ensures OnPage(ChunksOf(pages, n, split), MetasOf(pages, n, source, split), page)
         == PageChunks(pages[page - 1], split)
  {
    assert |ChunksOf(pages, n, split)| == |MetasOf(pages, n, source, split)| by {
      ReferenceAligned(pages, n, source, split);
    }
    var chunks := ChunksOf(pages, n - 1, split);
    var metas := MetasOf(pages, n - 1, source, split);
    assert |chunks| == |metas| by {
      ReferenceAligned(pages, n - 1, source, split);
    }
    var all := ChunksOf(pages, n, split);
    var allMetas := MetasOf(pages, n, source, split);
    var added := PageChunks(pages[n - 1], split);
    var expected := PageChunks(pages[page - 1], split);
    if page < n {
      assert OnPage(all, allMetas, page) == expected by {
        PageContribution(pages, n - 1, source, split, page);
        EarlierPageKept(all, allMetas, chunks, metas, added, n, source, page);
      }
    } else {
      assert OnPage(all, allMetas, page) == expected by {
        LaterPageAbsent(pages, n - 1, source, split, page);
        OwnPageAdded(all, allMetas, chunks, metas, added, n, source);
      }
    }
  }

  /** Appending page `n`'s chunks leaves an earlier page's chunks as they
      were. */
  lemma EarlierPageKept(all: seq<string>, allMetas: seq<Meta>, chunks: seq<string>, metas: seq<Meta>,
                        added: seq<string>, n: nat, source: string, page: nat)
    requires |chunks| == |metas| && page != n
    requires all == chunks + added && allMetas == metas + PageMetas(n, source, |added|)
    ensures |all| == |allMetas|
    ensures OnPage(all, allMetas, page) == OnPage(chunks, metas, page)
  {
    assert |all| == |allMetas|;
    OnPageAppend(chunks, metas, added, PageMetas(n, source, |added|), page);
    OnPageUniform(added, n, source, page);
    Text.AppendEmpty(OnPage(chunks, metas, page), []);
  }

  /** Appending page `n`'s chunks, when no chunk of page `n` came before,
      gives page `n` exactly those chunks. */
  lemma OwnPageAdded(all: seq<string>, allMetas: seq<Meta>, chunks: seq<string>, metas: seq<Meta>,
                     added: seq<string>, n: nat, source: string)
    requires |chunks| == |metas| && OnPage(chunks, metas, n) == []
    requires all == chunks + added && allMetas == metas + PageMetas(n, source, |added|)
    ensures |all| == |allMetas|
    ensures OnPage(all, allMetas, n) == added
  {
    assert |all| == |allMetas|;
    OnPageAppend(chunks, metas, added, PageMetas(n, source, |added|), n);
    OnPageUniform(added, n, source, n);
    Text.AppendEmpty([], added);
  }
}
