/**
 * The deterministic parts of the lead-generation orchestrator: choosing which
 * search-result links the content fetcher may load, the all-or-nothing fallback
 * around that load, and probing for an unused output filename.
 */
module Agent {
  import opened Wrappers
  import opened Json
  import opened Text

  // ---------------------------------------------------------------------------
  // URL selection for the content fetcher
  // ---------------------------------------------------------------------------

  /** Document types the fetcher refuses, tested as substrings of the lower-cased link. */
  const BlockedExtensions: seq<string> := [".pdf", ".doc", ".docx", ".ppt", ".pptx"]

  /** Some blocked extension occurs anywhere in the lower-cased url. */
  predicate HasBlockedExtension(url: string) {
    exists ext | ext in BlockedExtensions :: Contains(Lower(url), ext)
  }

  /** The fetcher's test on one link: a bare "http" prefix and no blocked extension. */
  predicate Fetchable(url: string) {
    StartsWith(url, "http") && !HasBlockedExtension(url)
  }

  /** The record is a dict with a "link" key. */
  predicate HasLink(r: Json) {
    r.JObject? && "link" in r.fields
  }

  /** The record has a "link" whose value is not a string: `startswith` raises on it. */
  predicate HasNonStringLink(r: Json) {
    HasLink(r) && !r.fields["link"].JString?
  }

  /** Some record has a "link" that is not a string. */
  predicate AnyNonStringLink(rs: seq<Json>) {
    exists i | 0 <= i < |rs| :: HasNonStringLink(rs[i])
  }

  /** The record contributes its link to the batch handed to the loader. */
  predicate Qualifies(r: Json) {
    HasLink(r) && r.fields["link"].JString? && Fetchable(r.fields["link"].s)
  }

  function LinkOf(r: Json): string
    requires Qualifies(r)
  {
    r.fields["link"].s
  }

  /** The links of the qualifying records, in the order of the records. */
  function Urls(rs: seq<Json>): (r: seq<string>)
    ensures |r| <= |rs|
  {
    if rs == [] then []
    else Urls(rs[..|rs| - 1]) + (if Qualifies(rs[|rs| - 1]) then [LinkOf(rs[|rs| - 1])] else [])
  }

  /** The positions of the qualifying records, in increasing order. */
  function Origins(rs: seq<Json>): seq<nat> {
    if rs == [] then []
    else Origins(rs[..|rs| - 1]) + (if Qualifies(rs[|rs| - 1]) then [|rs| - 1] else [])
  }

  /**
   * The selected urls are an order-preserving subsequence of the records: the
   * j-th url is the link of record Origins(rs)[j], those positions increase
   * strictly (so no record is used twice), each of them qualifies, and every
   * qualifying record is among them.
   */
  lemma {:induction false} UrlsAreQualifyingLinksInOrder(rs: seq<Json>)
    ensures |Origins(rs)| == |Urls(rs)|
    ensures forall j :: 0 <= j < |Origins(rs)| ==>
              Origins(rs)[j] < |rs| && Qualifies(rs[Origins(rs)[j]]) && Urls(rs)[j] == LinkOf(rs[Origins(rs)[j]])
    ensures forall j, k :: 0 <= j < k < |Origins(rs)| ==> Origins(rs)[j] < Origins(rs)[k]
    ensures forall i :: 0 <= i < |rs| && Qualifies(rs[i]) ==> i in Origins(rs)
  {
    if rs != [] {
      var front := rs[..|rs| - 1];
      UrlsAreQualifyingLinksInOrder(front);
      forall j | 0 <= j < |Origins(front)| ensures rs[Origins(front)[j]] == front[Origins(front)[j]] { }
      forall i | 0 <= i < |rs| - 1 && Qualifies(rs[i]) ensures i in Origins(rs) {
        assert rs[i] == front[i];
      }
    }
  }

  /** A url is selected exactly when some record qualifies with that link. */
  lemma {:induction false} SelectedIffQualifyingLink(rs: seq<Json>, url: string)
    ensures url in Urls(rs) <==> exists i :: 0 <= i < |rs| && Qualifies(rs[i]) && LinkOf(rs[i]) == url
  {
    UrlsAreQualifyingLinksInOrder(rs);
    if url in Urls(rs) {
      var j :| 0 <= j < |Urls(rs)| && Urls(rs)[j] == url;
      assert Qualifies(rs[Origins(rs)[j]]) && LinkOf(rs[Origins(rs)[j]]) == url;
    }
    if exists i :: 0 <= i < |rs| && Qualifies(rs[i]) && LinkOf(rs[i]) == url {
      var i :| 0 <= i < |rs| && Qualifies(rs[i]) && LinkOf(rs[i]) == url;
      var j :| 0 <= j < |Origins(rs)| && Origins(rs)[j] == i;
      assert Urls(rs)[j] == url;
    }
  }

  /** Selection distributes over concatenation of result lists. */
  lemma {:induction false} UrlsAppend(a: seq<Json>, b: seq<Json>)
    ensures Urls(a + b) == Urls(a) + Urls(b)
  {
    if b == [] {
      assert a + b == a;
    } else {
      var front := b[..|b| - 1];
      assert (a + b)[..|a + b| - 1] == a + front;
      UrlsAppend(a, front);
    }
  }

  /** A record that is not a dict, or a dict without "link", contributes nothing wherever it stands. */
  lemma RecordWithoutLinkIgnored(a: seq<Json>, r: Json, b: seq<Json>)
    requires !HasLink(r)
    ensures Urls(a + [r] + b) == Urls(a + b)
  {
    UrlsAppend(a + [r], b);
    UrlsAppend(a, [r]);
    UrlsAppend(a, b);
    assert [r][..0] == [];
  }

  /** Every selected url starts with "http" and contains no blocked extension in lower case. */
  lemma {:induction false} SelectedUrlsAreFetchable(rs: seq<Json>)
    ensures forall url :: url in Urls(rs) ==>
              StartsWith(url, "http")
              && !Contains(Lower(url), ".pdf") && !Contains(Lower(url), ".doc") && !Contains(Lower(url), ".docx")
              && !Contains(Lower(url), ".ppt") && !Contains(Lower(url), ".pptx")
  {
    forall url | url in Urls(rs)
      ensures Fetchable(url)
    {
      SelectedIffQualifyingLink(rs, url);
    }
  }

  /** Because ".doc" is a prefix of ".docx" and ".ppt" of ".pptx", three of the five tests suffice. */
  lemma BlockedExtensionsReduce(url: string)
    ensures HasBlockedExtension(url) <==>
              Contains(Lower(url), ".pdf") || Contains(Lower(url), ".doc") || Contains(Lower(url), ".ppt")
  {
    var l := Lower(url);
    if Contains(l, ".docx") {
      assert ".docx" == ".doc" + "x";
      ContainsPrefix(l, ".doc", "x");
    }
    if Contains(l, ".pptx") {
      assert ".pptx" == ".ppt" + "x";
      ContainsPrefix(l, ".ppt", "x");
    }
    if Contains(l, ".doc") {
      assert ".doc" in BlockedExtensions;
    }
    if Contains(l, ".ppt") {
      assert ".ppt" in BlockedExtensions;
    }
    if Contains(l, ".pdf") {
      assert ".pdf" in BlockedExtensions;
    }
  }

  /** A link ending in a document extension, in any letter case, is never fetched. */
  lemma DocumentLinkRejected(url: string, ext: string)
    requires ext in BlockedExtensions
    requires EndsWith(Lower(url), ext)
    ensures !Fetchable(url)
  {
    EndsWithContains(Lower(url), ext);
  }

  /** The extension test looks anywhere in the link, so a host name containing ".doc" is rejected too. */
  lemma SubstringNotSuffixTest()
    ensures !Fetchable("http://x.docs.io/")
  {
    var u := "http://x.docs.io/";
    var l := Lower(u);
    assert l[8] == LowerChar(u[8]) == '.';
    assert l[9] == LowerChar(u[9]) == 'd';
    assert l[10] == LowerChar(u[10]) == 'o';
    assert l[11] == LowerChar(u[11]) == 'c';
    assert l[8..12] == ".doc";
    assert OccursAt(l, ".doc", 8);
    assert ".doc" in BlockedExtensions;
  }

  /** The scheme test is a bare prefix test: "httpfoo" passes it. */
  lemma BarePrefixSchemeTest()
    ensures Fetchable("httpfoo")
    ensures !Fetchable("ftp://example.com/")
  {
    var u := "httpfoo";
    var l := Lower(u);
    forall ext | ext in BlockedExtensions ensures !Contains(l, ext) {
      assert |ext| >= 1 && ext[0] == '.';
      forall i | 0 <= i <= |l| ensures !OccursAt(l, ext, i) {
        if i < |l| {
          assert l[i] == LowerChar(u[i]) != '.';
        }
      }
    }
    var f := "ftp://example.com/";
    assert f[0] == 'f' != "http"[0];
  }

  // ---------------------------------------------------------------------------
  // Fetching the selected pages
  // ---------------------------------------------------------------------------

  /** A loaded page; only its text is used. */
  datatype Document = Document(pageContent: string, metadata: map<string, string>)

  /** What the page loader does with a batch: return its documents, or raise. */
  datatype LoadOutcome = Loaded(docs: seq<Document>) | LoadFailed

  /** The page loader, given the whole batch of urls at once. */
  type Loader = seq<string> -> LoadOutcome

  /**
   * The result of processing search results: either the call raised on a link
   * that is not a string, or it returned web content. `requested` is the batch
   * handed to the loader, and None when the loader was never invoked.
   */
  datatype FetchRun =
    | LinkNotString
    | Fetched(requested: Option<seq<string>>, content: seq<string>)

  /** The page text of each document, one per document, in order. */
  function PageContents(docs: seq<Document>): (r: seq<string>)
    ensures |r| == |docs|
    ensures forall i :: 0 <= i < |docs| ==> r[i] == docs[i].pageContent
  {
    if docs == [] then [] else [docs[0].pageContent] + PageContents(docs[1..])
  }

  /**
   * Walks the search results, collects the fetchable links, and hands them to
   * the loader as one batch. With no link selected the loader is not invoked and
   * the content is empty; if the loader fails the whole batch becomes empty.
   */
  method ProcessSearchResults(searchResults: seq<Json>, loader: Loader)
    returns (run: FetchRun)
    ensures run.LinkNotString? <==> AnyNonStringLink(searchResults)
    ensures run.Fetched? && Urls(searchResults) == [] ==> run.requested.None? && run.content == []
    ensures run.Fetched? && Urls(searchResults) != [] ==>
              run.requested.Some? && run.requested.value == Urls(searchResults)
    ensures run.Fetched? && Urls(searchResults) != [] && loader(Urls(searchResults)).LoadFailed? ==> run.content == []
    ensures run.Fetched? && Urls(searchResults) != [] && loader(Urls(searchResults)).Loaded? ==>
              run.content == PageContents(loader(Urls(searchResults)).docs)
  {
    var urls: seq<string> := [];
    for i := 0 to |searchResults|
      invariant urls == Urls(searchResults[..i])
      invariant forall j :: 0 <= j < i ==> !HasNonStringLink(searchResults[j])
    {
      var result := searchResults[i];
      assert searchResults[..i + 1][..i] == searchResults[..i];
      if result.JObject? && "link" in result.fields {
        var url := result.fields["link"];
        if !url.JString? {
          // `url.startswith` raises outside the try: the whole call fails.
          return LinkNotString;
        }
        if Fetchable(url.s) {
          urls := urls + [url.s];
        }
      }
    }
    assert searchResults[..|searchResults|] == searchResults;
    if urls == [] {
      return Fetched(None, []);
    }
    var outcome := loader(urls);
    match outcome {
      case LoadFailed =>
        run := Fetched(Some(urls), []);
      case Loaded(docs) =>
        run := Fetched(Some(urls), PageContents(docs));
    }
  }

  // ---------------------------------------------------------------------------
  // Output-filename probing
  // ---------------------------------------------------------------------------

  const LeadsDir: string := "leads"

  /** Everything of the output path that precedes the counter. */
  function LeadsPrefix(industry: string, country: string): string {
    LeadsDir + "/" + "leads_" + industry + "_" + country + "_"
  }

  /** `os.path.join("leads", f"leads_{industry}_{country}_{counter}.md")`. */
  function LeadsPath(industry: string, country: string, counter: nat): (path: string)
    ensures StartsWith(path, "leads/leads_" + industry + "_" + country + "_")
    ensures EndsWith(path, ".md")
  {
    var prefix := LeadsPrefix(industry, country);
    var path := prefix + Decimal(counter) + ".md";
    assert prefix == "leads/leads_" + industry + "_" + country + "_";
    assert path[..|prefix|] == prefix;
    assert path[|path| - 3..] == ".md";
    path
  }

  /** Reads the counter back out of an output path for the given industry and country. */
  function CounterOf(industry: string, country: string, path: string): nat {
    var n := |LeadsPrefix(industry, country)|;
    if n + 3 <= |path| then ParseDecimal(path[n..|path| - 3]) else 0
  }

  /** The counter can be read back from the path built with it. */
  lemma CounterOfLeadsPath(industry: string, country: string, counter: nat)
    ensures CounterOf(industry, country, LeadsPath(industry, country, counter)) == counter
  {
    var p := LeadsPrefix(industry, country);
    var path := LeadsPath(industry, country, counter);
    assert path[|p|..|path| - 3] == Decimal(counter);
    ParseDecimalOfDecimal(counter);
  }

  /** Distinct counters give distinct paths. */
  lemma LeadsPathInjective(industry: string, country: string, j: nat, k: nat)
    ensures LeadsPath(industry, country, j) == LeadsPath(industry, country, k) ==> j == k
  {
    CounterOfLeadsPath(industry, country, j);
    CounterOfLeadsPath(industry, country, k);
  }

  /** `counter` is the smallest positive counter whose path is not among the existing files. */
  ghost predicate SmallestUnused(existing: set<string>, industry: string, country: string, counter: nat) {
    && counter >= 1
    && LeadsPath(industry, country, counter) !in existing
    && forall k :: 1 <= k < counter ==> LeadsPath(industry, country, k) in existing
  }

  /**
   * Probes counters upward from 1 until the path is free. The result is the
   * smallest unused counter, which never exceeds the number of existing files plus one.
   */
  method NextLeadsFilename(existing: set<string>, industry: string, country: string)
    returns (counter: nat, filename: string)
    ensures SmallestUnused(existing, industry, country, counter)
    ensures filename == LeadsPath(industry, country, counter)
    ensures counter <= |existing| + 1
  {
    counter := 1;
    ghost var probed: set<string> := {};
    while LeadsPath(industry, country, counter) in existing
      invariant counter >= 1
      invariant probed <= existing
      invariant |probed| == counter - 1
      invariant forall k :: 1 <= k < counter ==> LeadsPath(industry, country, k) in existing
      invariant forall p :: p in probed ==> CounterOf(industry, country, p) < counter
      decreases |existing - probed|
    {
      var path := LeadsPath(industry, country, counter);
      CounterOfLeadsPath(industry, country, counter);
      assert path !in probed;
      assert existing - (probed + {path}) == (existing - probed) - {path};
      probed := probed + {path};
      counter := counter + 1;
    }
    SubsetCardinality(probed, existing);
    filename := LeadsPath(industry, country, counter);
  }

  lemma SubsetCardinality(a: set<string>, b: set<string>)
    requires a <= b
    ensures |a| <= |b|
  {
    assert b == a + (b - a);
  }

  /** The probe's contract determines its result: there is one smallest unused counter. */
  lemma SmallestUnusedUnique(existing: set<string>, industry: string, country: string, j: nat, k: nat)
    requires SmallestUnused(existing, industry, country, j)
    requires SmallestUnused(existing, industry, country, k)
    ensures j == k
  {
  }

  /**
   * Without concurrent runs, a run that writes its file makes the next run for the
   * same industry and country pick a strictly larger counter, so no file is overwritten.
   */
  lemma RepeatedRunsIncrease(existing: set<string>, industry: string, country: string, j: nat, k: nat)
    requires SmallestUnused(existing, industry, country, j)
    requires SmallestUnused(existing + {LeadsPath(industry, country, j)}, industry, country, k)
    ensures j < k
    ensures LeadsPath(industry, country, k) != LeadsPath(industry, country, j)
  {
  }
}
