/** One indexing pass over the manifest: `index_page` and `run` of
    prj3/indexer.py. The search engine is a `SearchIndex` object whose
    `accepts` says whether a submission succeeds given what the index holds;
    the raw page files are a function from path to what reading them gives. */
module Ingest {
  import opened Wrappers
  import opened Manifest
  import opened Extract

  /** The metadata of a page together with its original URL, as submitted. */
  datatype IndexDocument = IndexDocument(metadata: Metadata, url: string)

  /** The exception `run` catches and returns. */
  datatype RunError =
    | ManifestUnreadable           // opening the manifest fails (IOError)
    | ManifestFormat(e: FormatError) // a manifest line does not unpack (ValueError)
    | ExtractionFault              // `parse_raw_html` raises
    | SubmissionFailed             // `es.index` raises

  /** The triple `run` returns, and the documents it submitted. */
  datatype RunOutcome = RunOutcome(i: nat, isFinished: bool, err: Option<RunError>, sent: seq<IndexDocument>)

  /** The file system as `run` sees it: the raw data directory and what
      reading each raw path gives. */
  datatype Env = Env(rawDataDir: string, pages: string -> PageSource)

  /** Whether the search engine stores a document, given what it already
      holds; a refusal stands for any exception `es.index` raises. */
  type Acceptor = (seq<IndexDocument>, IndexDocument) -> bool

  /** The search engine index that `index_page` posts to. */
  class SearchIndex {
    const accepts: Acceptor
    var documents: seq<IndexDocument>

    constructor (accepts: Acceptor, documents: seq<IndexDocument>)
      ensures this.accepts == accepts && this.documents == documents
    {
      this.accepts := accepts;
      this.documents := documents;
    }

    /** `index_page`, prj3/indexer.py:34-37: the document is stored, or the
        call fails and nothing changes. */
    method Index(doc: IndexDocument) returns (ok: bool)
      modifies this
      ensures ok == accepts(old(documents), doc)
      ensures documents == if ok then old(documents) + [doc] else old(documents)
    {
      ok := accepts(documents, doc);
      if ok {
        documents := documents + [doc];
      }
    }
  }

  /** Where the raw page of a record lives. */
  function PathOf(env: Env, r: Record): string {
    RawDataPath(env.rawDataDir, r.level1, r.level2)
  }

  /** What the loop body makes of one manifest line before it submits:
      the line does not unpack, its page is skipped (`parse_raw_html` returned
      `None`), `parse_raw_html` raised, or the document to submit. */
  datatype LineOutcome = BadLine(e: FormatError) | NoPage | PageFault | ToSubmit(doc: IndexDocument)

  /** prj3/indexer.py:107-112 for one record: its page is read and
      extracted, and the document gets the record's URL. */
  function RecordOutcome(env: Env, r: Record): LineOutcome
  {
    match ParseRawHtml(env.pages(PathOf(env, r)))
    case NotExtractable => NoPage
    case Fault => PageFault
    case Extracted(m) => ToSubmit(IndexDocument(m, r.url))
  }

  /** prj3/indexer.py:106-112 for one line. `ItemAt` never gives `End`, which
      only the stream's `Next` returns; that case is there to make the match
      complete. */
  function Line(env: Env, line: string): LineOutcome
  {
    match ItemAt(line)
    case End => NoPage
    case Malformed(e) => BadLine(e)
    case Yield(r) => RecordOutcome(env, r)
  }

  /** The outcome of every line left after the skip. */
  function Outcomes(env: Env, recs: seq<string>): (outs: seq<LineOutcome>)
    ensures |outs| == |recs|
    decreases |recs|, 1
  {
    if recs == [] then [] else OutcomesOfFirst(env, recs)
  }

  /** The outcomes of a non-empty list of lines: its first line's, then the
      rest's. Kept apart from `Outcomes` so that a proof about a pass sees a
      line's outcome only where it asks for it. */
  function OutcomesOfFirst(env: Env, recs: seq<string>): (outs: seq<LineOutcome>)
    requires recs != []
    ensures |outs| == |recs|
    decreases |recs|, 0
  {
    [Line(env, recs[0])] + Outcomes(env, recs[1..])
  }

  /** The outcome at position `k` is that of line `k`. */
  lemma {:induction false} OutcomesAt(env: Env, recs: seq<string>, k: nat)
    requires k < |recs|
    ensures Outcomes(env, recs)[k] == Line(env, recs[k])
  {
    OutcomesHead(env, recs);
    if k > 0 {
      OutcomesAt(env, recs[1..], k - 1);
      assert recs[1..][k - 1] == recs[k];
      assert Outcomes(env, recs)[1..][k - 1] == Outcomes(env, recs)[k];
    }
  }

  /** The first line's outcome comes first, then the rest's. */
  lemma OutcomesHead(env: Env, recs: seq<string>)
    requires recs != []
    ensures Outcomes(env, recs)[0] == Line(env, recs[0])
    ensures Outcomes(env, recs)[1..] == Outcomes(env, recs[1..])
  {
    assert Outcomes(env, recs) == OutcomesOfFirst(env, recs);
  }

  /** The outcomes of the lines from position `i` on are the outcomes from
      position `i` on. */
  lemma OutcomesSuffix(env: Env, recs: seq<string>, i: nat)
    requires i <= |recs|
    ensures Outcomes(env, recs[i..]) == Outcomes(env, recs)[i..]
  {
    var a, b := Outcomes(env, recs[i..]), Outcomes(env, recs)[i..];
    forall k | 0 <= k < |a|
      ensures a[k] == b[k]
    {
      OutcomesOfSameLine(env, recs[i..], k, recs, i + k);
    }
  }

  /** Two positions that hold the same line have the same outcome. */
  lemma OutcomesOfSameLine(env: Env, r1: seq<string>, k1: nat, r2: seq<string>, k2: nat)
    requires k1 < |r1| && k2 < |r2| && r1[k1] == r2[k2]
    ensures Outcomes(env, r1)[k1] == Outcomes(env, r2)[k2]
  {
    OutcomesAt(env, r1, k1);
    OutcomesAt(env, r2, k2);
  }

  /** The rest of the pass from enumerate position `j`, where `i` is the last
      position `enumerate` assigned, `before` what the index held when the
      pass began and `sent` what the pass has stored so far. */
  function Go(acc: Acceptor, outs: seq<LineOutcome>, j: nat, i: nat,
              before: seq<IndexDocument>, sent: seq<IndexDocument>): RunOutcome
    requires j <= |outs|
    decreases |outs| - j
  {
    if j == |outs| then RunOutcome(i, true, None, sent)
    else
      match outs[j]
      case BadLine(e) => RunOutcome(i, false, Some(ManifestFormat(e)), sent)
      case NoPage => Go(acc, outs, j + 1, j, before, sent)
      case PageFault => RunOutcome(j, false, Some(ExtractionFault), sent)
      case ToSubmit(doc) =>
        if acc(before + sent, doc) then Go(acc, outs, j + 1, j, before, sent + [doc])
        else RunOutcome(j, false, Some(SubmissionFailed), sent)
  }

  /** `run` over the outcomes of the lines left after the skip. */
  function Pass(acc: Acceptor, outs: seq<LineOutcome>, before: seq<IndexDocument>): RunOutcome
  {
    Go(acc, outs, 0, 0, before, [])
  }

  /** `run`, prj3/indexer.py:99-119, over the manifest's lines (`None` when the
      file cannot be opened) and the number of lines to skip. */
  function RunSpec(env: Env, acc: Acceptor, manifest: Option<seq<string>>, start: nat,
                   before: seq<IndexDocument>): RunOutcome
  {
    if manifest.None? then RunOutcome(0, false, Some(ManifestUnreadable), [])
    else Pass(acc, Outcomes(env, SkipLines(manifest.value, start)), before)
  }

  /** The loop body of `run` for one record the generator yielded: extract
      its page and submit the document. */
  method Process(env: Env, index: SearchIndex, r: Record) returns (out: LineOutcome, ok: bool)
    modifies index
    ensures out == RecordOutcome(env, r)
    ensures ok == (out.ToSubmit? ==> index.accepts(old(index.documents), out.doc))
    ensures index.documents == if out.ToSubmit? && ok then old(index.documents) + [out.doc] else old(index.documents)
  {
    var metadata := ParseRawHtml(env.pages(PathOf(env, r)));
    match metadata {
      case NotExtractable =>
        out, ok := NoPage, true;
      case Fault =>
        out, ok := PageFault, true;
      case Extracted(m) =>
        var doc := IndexDocument(m, r.url);
        out := ToSubmit(doc);
        ok := index.Index(doc);
    }
  }

  /** One iteration of the loop of `run`, prj3/indexer.py:106-113: the
      generator's next item and, for a record, its page extracted and its
      document submitted. The outcome is that of the line at the stream's
      position, `expected`; `None` when the stream has ended. */
  method Iterate(env: Env, index: SearchIndex, stream: RecordStream, ghost expected: LineOutcome)
    returns (out: Option<LineOutcome>, ok: bool)
    requires stream.Valid() && !stream.closed
    requires stream.pos < |stream.lines| ==> expected == Line(env, stream.lines[stream.pos])
    modifies stream, index
    ensures stream.Valid()
    ensures old(stream.pos) == |stream.lines| <==> out.None?
    ensures out.None? ==> index.documents == old(index.documents)
    ensures out.Some? ==>
      && stream.pos == old(stream.pos) + 1
      && out.value == expected
      && stream.closed == out.value.BadLine?
      && ok == (out.value.ToSubmit? ==> index.accepts(old(index.documents), out.value.doc))
      && index.documents == if out.value.ToSubmit? && ok then old(index.documents) + [out.value.doc] else old(index.documents)
  {
    ghost var line := if stream.pos < |stream.lines| then stream.lines[stream.pos] else "";
    var item := stream.Next();
    ok := true;
    if item.End? {
      out := None;
      return;
    }
    LineOfItem(env, line, item);
    if item.Malformed? {
      out := Some(BadLine(item.error));
    } else {
      var o;
      o, ok := Process(env, index, item.record);
      out := Some(o);
    }
  }

  /** `Iterate` at enumerate position `j` of the lines `recs` the stream
      holds from `first` on. */
  method Advance(env: Env, index: SearchIndex, stream: RecordStream, ghost recs: seq<string>,
                 ghost first: nat, ghost j: nat) returns (out: Option<LineOutcome>, ok: bool)
    requires stream.Valid() && !stream.closed
    requires first + j == stream.pos && stream.lines[first..] == recs
    modifies stream, index
    ensures stream.Valid()
    ensures j == |recs| <==> out.None?
    ensures out.None? ==> index.documents == old(index.documents)
    ensures out.Some? ==>
      && stream.pos == old(stream.pos) + 1
      && out.value == Outcomes(env, recs)[j]
      && stream.closed == out.value.BadLine?
      && ok == (out.value.ToSubmit? ==> index.accepts(old(index.documents), out.value.doc))
      && index.documents == if out.value.ToSubmit? && ok then old(index.documents) + [out.value.doc] else old(index.documents)
  {
    ghost var expected := NoPage;
    if j < |recs| {
      ExpectedLine(env, recs, j, stream.lines, first);
      expected := Outcomes(env, recs)[j];
    }
    out, ok := Iterate(env, index, stream, expected);
  }

  /** The outcome at enumerate position `j` is that of the line the stream
      stands at. */
  lemma ExpectedLine(env: Env, recs: seq<string>, j: nat, lines: seq<string>, first: nat)
    requires first <= |lines| && lines[first..] == recs && j < |recs|
    ensures first + j < |lines| && Outcomes(env, recs)[j] == Line(env, lines[first + j])
  {
    OutcomesAt(env, recs, j);
    assert recs[j] == lines[first + j];
  }

  /** `run`, prj3/indexer.py:99-119, proved against `RunSpec`: the value of
      `i` after the loop, whether the loop ran to the end, the exception that
      stopped it, and what the index holds afterwards. */
  method Run(env: Env, index: SearchIndex, manifest: Option<seq<string>>, start: nat)
    returns (i: nat, isFinished: bool, err: Option<RunError>)
    modifies index
    ensures var o := RunSpec(env, index.accepts, manifest, start, old(index.documents));
      && i == o.i && isFinished == o.isFinished && err == o.err
      && index.documents == old(index.documents) + o.sent
  {
    i, isFinished, err := 0, false, None;
    if manifest.None? {
      err := Some(ManifestUnreadable);
      return;
    }
    ghost var before := index.documents;
    ghost var recs := SkipLines(manifest.value, start);
    ghost var outs := Outcomes(env, recs);
    ghost var sent: seq<IndexDocument> := [];
    var stream := new RecordStream(manifest.value, start);
    ghost var first := stream.pos;
    var j: nat := 0;
    while true
      invariant stream.Valid() && !stream.closed && stream.lines == manifest.value
      invariant first + j == stream.pos && stream.lines[first..] == recs && |outs| == |recs|
      invariant index.documents == before + sent
      invariant Go(index.accepts, outs, j, i, before, sent) == Pass(index.accepts, outs, before)
      decreases |outs| - j
    {
      var out, ok := Advance(env, index, stream, recs, first, j);
      if out.None? {
        assert j == |outs|;
        isFinished := true;
        return;
      }
      match out.value {
        case BadLine(e) =>
          err := Some(ManifestFormat(e));
          return;
        case NoPage =>
          i := j;
        case PageFault =>
          i := j;
          err := Some(ExtractionFault);
          return;
        case ToSubmit(doc) =>
          i := j;
          if !ok {
            err := Some(SubmissionFailed);
            return;
          }
          sent := sent + [doc];
      }
      j := j + 1;
    }
  }

  /** How the outcome of a line follows from what the generator yields for it. */
  lemma LineOfItem(env: Env, line: string, item: Item)
    requires item == ItemAt(line)
    ensures !item.End?
    ensures item.Malformed? ==> Line(env, line) == BadLine(item.error)
    ensures item.Yield? ==> Line(env, line) == RecordOutcome(env, item.record)
  {
  }

  // ---------------------------------------------------------------------
  // A reference description of a pass, position by position.

  /** What the lines would store, in line order, if none raised. */
  function Harvest(outs: seq<LineOutcome>): (docs: seq<IndexDocument>)
    ensures |docs| <= |outs|
  {
    if outs == [] then []
    else Harvest(outs[..|outs| - 1]) + (if outs[|outs| - 1].ToSubmit? then [outs[|outs| - 1].doc] else [])
  }

  /** Whether processing the line at position `k` raises, given that every
      earlier line was processed without error. */
  function StepError(acc: Acceptor, outs: seq<LineOutcome>, k: nat, before: seq<IndexDocument>): Option<RunError>
    requires k < |outs|
  {
    match outs[k]
    case BadLine(e) => Some(ManifestFormat(e))
    case NoPage => None
    case PageFault => Some(ExtractionFault)
    case ToSubmit(doc) =>
      if acc(before + Harvest(outs[..k]), doc) then None else Some(SubmissionFailed)
  }

  /** The value `i` holds when position `j` is about to be read: the previous
      position, or the initial 0. */
  function Prev(j: nat): nat {
    if j == 0 then 0 else j - 1
  }

  /** The value of `i` when position `j` raises: a malformed line is never
      assigned to `i`, anything else is. */
  function StopIndex(err: RunError, j: nat): nat {
    if err.ManifestFormat? then Prev(j) else j
  }

  lemma HarvestStep(outs: seq<LineOutcome>, j: nat)
    requires j < |outs|
    ensures Harvest(outs[..j + 1]) == Harvest(outs[..j]) + (if outs[j].ToSubmit? then [outs[j].doc] else [])
  {
    assert outs[..j + 1][..j] == outs[..j];
  }

  /** A line that raises nothing moves the pass on to the next position. */
  lemma GoStep(acc: Acceptor, outs: seq<LineOutcome>, j: nat, before: seq<IndexDocument>)
    requires j < |outs| && StepError(acc, outs, j, before).None?
    ensures Go(acc, outs, j, Prev(j), before, Harvest(outs[..j]))
         == Go(acc, outs, j + 1, j, before, Harvest(outs[..j + 1]))
  {
    HarvestStep(outs, j);
    var h := Harvest(outs[..j]);
    assert h + [] == h;
  }

  /** A line that raises ends the pass there. */
  lemma GoStop(acc: Acceptor, outs: seq<LineOutcome>, j: nat, before: seq<IndexDocument>)
    requires j < |outs| && StepError(acc, outs, j, before).Some?
    ensures var err := StepError(acc, outs, j, before).value;
      Go(acc, outs, j, Prev(j), before, Harvest(outs[..j]))
        == RunOutcome(StopIndex(err, j), false, Some(err), Harvest(outs[..j]))
  {
  }

  /** From position `j` on, a pass where no line raises runs to the end. */
  lemma {:induction false} GoFinishes(acc: Acceptor, outs: seq<LineOutcome>, j: nat, before: seq<IndexDocument>)
    requires j <= |outs|
    requires forall k :: j <= k < |outs| ==> StepError(acc, outs, k, before).None?
    ensures Go(acc, outs, j, Prev(j), before, Harvest(outs[..j]))
         == RunOutcome(Prev(|outs|), true, None, Harvest(outs))
    decreases |outs| - j
  {
    if j == |outs| {
      assert outs[..j] == outs;
    } else {
      GoStep(acc, outs, j, before);
      GoFinishes(acc, outs, j + 1, before);
    }
  }

  /** From position `j` on, a pass stops at the first line `f` that raises. */
  lemma {:induction false} GoStops(acc: Acceptor, outs: seq<LineOutcome>, j: nat, f: nat, before: seq<IndexDocument>)
    requires j <= f < |outs| && StepError(acc, outs, f, before).Some?
    requires forall k :: j <= k < f ==> StepError(acc, outs, k, before).None?
    ensures var err := StepError(acc, outs, f, before).value;
      Go(acc, outs, j, Prev(j), before, Harvest(outs[..j]))
        == RunOutcome(StopIndex(err, f), false, Some(err), Harvest(outs[..f]))
    decreases f - j
  {
    if j == f {
      GoStop(acc, outs, f, before);
    } else {
      GoStep(acc, outs, j, before);
      GoStops(acc, outs, j + 1, f, before);
    }
  }

  /** A pass in which no line raises runs to the end: it is finished, returns
      no error, leaves `i` at the last position (0 for no lines) and stores
      what every line contributes, in order. */
  lemma PassFinished(acc: Acceptor, outs: seq<LineOutcome>, before: seq<IndexDocument>)
    requires forall k :: 0 <= k < |outs| ==> StepError(acc, outs, k, before).None?
    ensures Pass(acc, outs, before) == RunOutcome(Prev(|outs|), true, None, Harvest(outs))
  {
    GoFinishes(acc, outs, 0, before);
  }

  /** A pass stops at the first line `f` that raises: it is not finished,
      returns that line's error, leaves `i` at `f` (at the line before a
      malformed one) and stores what the lines before `f` contribute. */
  lemma PassStops(acc: Acceptor, outs: seq<LineOutcome>, f: nat, before: seq<IndexDocument>)
    requires f < |outs| && StepError(acc, outs, f, before).Some?
    requires forall k :: 0 <= k < f ==> StepError(acc, outs, k, before).None?
    ensures var err := StepError(acc, outs, f, before).value;
      Pass(acc, outs, before) == RunOutcome(StopIndex(err, f), false, Some(err), Harvest(outs[..f]))
  {
    GoStops(acc, outs, 0, f, before);
  }

  /** Some line at or before `f` is the first that raises. */
  lemma {:induction false} FirstError(acc: Acceptor, outs: seq<LineOutcome>, f: nat, before: seq<IndexDocument>)
    requires f < |outs| && StepError(acc, outs, f, before).Some?
    ensures exists g :: (0 <= g <= f && StepError(acc, outs, g, before).Some? &&
      forall k :: 0 <= k < g ==> StepError(acc, outs, k, before).None?)
    decreases f
  {
    if g :| 0 <= g < f && StepError(acc, outs, g, before).Some? {
      FirstError(acc, outs, g, before);
    }
  }

  /** The outcome of a pass, as one statement: it is finished exactly when it
      returns no error, and an unfinished pass stopped at some line `f`, the
      first that raises, with `i` at or just before `f`, having stored
      exactly what the lines before `f` contribute. */
  lemma PassOutcome(acc: Acceptor, outs: seq<LineOutcome>, before: seq<IndexDocument>)
    ensures var o := Pass(acc, outs, before);
      && (o.isFinished <==> o.err.None?)
      && (o.isFinished ==> o.sent == Harvest(outs) && o.i == Prev(|outs|))
      && (!o.isFinished ==>
            exists f :: (0 <= f < |outs| && o.err == StepError(acc, outs, f, before) &&
              o.sent == Harvest(outs[..f]) && o.i == StopIndex(o.err.value, f) &&
              forall k :: 0 <= k < f ==> StepError(acc, outs, k, before).None?))
  {
    if f :| 0 <= f < |outs| && StepError(acc, outs, f, before).Some? {
      FirstError(acc, outs, f, before);
      var g :| 0 <= g <= f && StepError(acc, outs, g, before).Some? &&
        forall k :: 0 <= k < g ==> StepError(acc, outs, k, before).None?;
      PassStops(acc, outs, g, before);
    } else {
      PassFinished(acc, outs, before);
    }
  }

  /** Where an unfinished pass leaves `i`: at a line such that every line
      before it was fully processed, and nothing after it was stored. */
  lemma PassResume(acc: Acceptor, outs: seq<LineOutcome>, before: seq<IndexDocument>)
    ensures var o := Pass(acc, outs, before);
      && (o.isFinished <==> o.err.None?)
      && (o.isFinished ==> o.sent == Harvest(outs))
      && (!o.isFinished ==>
            && o.i < |outs|
            && Harvest(outs[..o.i]) <= o.sent
            && o.sent <= Harvest(outs[..o.i + 1]))
  {
    if g :| 0 <= g < |outs| && StepError(acc, outs, g, before).Some? {
      FirstError(acc, outs, g, before);
      var f :| 0 <= f <= g && StepError(acc, outs, f, before).Some? &&
        forall k :: 0 <= k < f ==> StepError(acc, outs, k, before).None?;
      PassStops(acc, outs, f, before);
      StopBounds(outs, f, StopIndex(StepError(acc, outs, f, before).value, f), Harvest(outs[..f]));
    } else {
      PassFinished(acc, outs, before);
    }
  }

  /** The documents stored before line `f`, where the pass stopped with `i`
      at `f` or just before it, lie between those before and after line `i`. */
  lemma StopBounds(outs: seq<LineOutcome>, f: nat, i: nat, sent: seq<IndexDocument>)
    requires f < |outs| && (i == f || i == Prev(f)) && sent == Harvest(outs[..f])
    ensures i < |outs| && Harvest(outs[..i]) <= sent && sent <= Harvest(outs[..i + 1])
  {
    HarvestStep(outs, i);
    if i < f {
      assert f == i + 1;
    }
  }

  /** What disjoint parts of the manifest contribute adds up. */
  lemma {:induction false} HarvestAppend(a: seq<LineOutcome>, b: seq<LineOutcome>)
    ensures Harvest(a + b) == Harvest(a) + Harvest(b)
    decreases |b|
  {
    if b == [] {
      assert a + b == a;
    } else {
      var b' := b[..|b| - 1];
      var ab := a + b;
      assert ab[..|ab| - 1] == a + b' && ab[|ab| - 1] == b[|b| - 1];
      HarvestAppend(a, b');
    }
  }

  /** Every stored document is the document of some line. */
  lemma {:induction false} HarvestSources(outs: seq<LineOutcome>, d: IndexDocument)
    requires d in Harvest(outs)
    ensures exists k :: 0 <= k < |outs| && outs[k] == ToSubmit(d)
  {
    var n := |outs|;
    var init := outs[..n - 1];
    if d in Harvest(init) {
      HarvestSources(init, d);
      var k :| 0 <= k < |init| && init[k] == ToSubmit(d);
      assert outs[k] == init[k];
    }
  }

  /** A line's document is the extracted page of the record on that line,
      with the record's URL. */
  lemma LineSubmits(env: Env, line: string, d: IndexDocument)
    requires Line(env, line) == ToSubmit(d)
    ensures ParseLine(line).Ok? && d.url == ParseLine(line).value.url
    ensures ParseRawHtml(env.pages(PathOf(env, ParseLine(line).value))) == Extracted(d.metadata)
  {
  }
}
