/** The resumable session of `main` in prj3/indexer.py (lines 237-255) and
    `load_progress` / `save_progress`: read the progress log next to the
    manifest, stop if the last run finished, otherwise run from where it
    stopped, append the new run's entry and re-raise its error. */
module Driver {
  import opened Wrappers
  import opened Manifest
  import opened Ingest
  import opened Text

  /** One entry of progress.json. */
  datatype Entry = Entry(runDate: string, endLineNum: nat, isFinished: bool)

  /** How a session ends: the last run had finished; the log is an empty list
      (`progress[-1]` raises IndexError); the run finished; or the run's
      error is raised after the progress was saved. */
  datatype SessionOutcome = AlreadyFinished | EmptyProgress | Done | Reraised(err: RunError)

  /** The progress file next to the manifest: whether it exists, and the
      entries it holds. */
  class ProgressFile {
    var present: bool
    var entries: seq<Entry>

    constructor (present: bool, entries: seq<Entry>)
      ensures this.present == present && this.entries == entries
    {
      this.present := present;
      this.entries := entries;
    }

    /** `load_progress`, prj3/indexer.py:180-183. */
    method Load() returns (progress: seq<Entry>)
      requires present
      ensures progress == entries
    {
      progress := entries;
    }

    /** `save_progress`, prj3/indexer.py:186-190: the new entry is appended to
        the list and the whole list replaces the file's contents, which
        creates the file when it is missing. */
    method Save(progress: seq<Entry>, end: nat, isFinished: bool, now: string) returns (saved: seq<Entry>)
      modifies this
      ensures saved == progress + [Entry(now, end, isFinished)]
      ensures present && entries == saved
    {
      saved := progress + [Entry(now, end, isFinished)];
      present, entries := true, saved;
    }
  }

  /** What `main` decides before running: stop now, or run from a start line
      with the progress list loaded so far. */
  datatype Plan = Stop(outcome: SessionOutcome) | Resume(start: nat, progress: seq<Entry>)

  /** prj3/indexer.py:237-246. */
  function PlanOf(present: bool, entries: seq<Entry>, noLoad: bool): (p: Plan)
    ensures p.Stop? ==> present && !noLoad && (p.outcome == AlreadyFinished || p.outcome == EmptyProgress)
  {
    if present && !noLoad then
      if entries == [] then Stop(EmptyProgress)
      else
        var prev := entries[|entries| - 1];
        if prev.isFinished then Stop(AlreadyFinished)
        else Resume(prev.endLineNum, entries)
    else Resume(0, [])
  }

  /** The entry `main` saves after a run that started at manifest line
      `start`: the absolute line the run stopped at, so that the next session
      resumes exactly there. */
  function ResumeEntry(start: nat, o: RunOutcome, now: string): Entry {
    Entry(now, start + o.i, o.isFinished)
  }

  /** The entry as prj3/indexer.py:249-252 writes it: `run` counts `i` from
      the start line, but the count is saved as if it were a line number. */
  function ResumeEntryAsWritten(start: nat, o: RunOutcome, now: string): Entry {
    Entry(now, o.i, o.isFinished)
  }

  /** Which line a session saves after its run: the count `run` returns, as
      prj3/indexer.py:249-252 writes it, or that count made absolute. */
  datatype Saving = AsWritten | Absolute

  function EntryOf(saving: Saving, start: nat, o: RunOutcome, now: string): Entry {
    match saving
    case AsWritten => ResumeEntryAsWritten(start, o, now)
    case Absolute => ResumeEntry(start, o, now)
  }

  /** The session outcome for a run outcome: `raise err` when there is one. */
  function Finish(o: RunOutcome): SessionOutcome {
    if o.err.Some? then Reraised(o.err.value) else Done
  }

  /** The outcome of a session that runs, and what it leaves behind. */
  datatype SessionEffect = SessionEffect(outcome: SessionOutcome, log: seq<Entry>, documents: seq<IndexDocument>)

  /** prj3/indexer.py:249-255 from start line `start` with the progress list
      `progress`, saving the line `saving` says. */
  function RunEffect(saving: Saving, env: Env, acc: Acceptor, manifest: Option<seq<string>>, start: nat,
                     progress: seq<Entry>, documents: seq<IndexDocument>, now: string): SessionEffect
  {
    var o := RunSpec(env, acc, manifest, start, documents);
    SessionEffect(Finish(o), progress + [EntryOf(saving, start, o, now)], documents + o.sent)
  }

  /** Run, save the progress, re-raise: prj3/indexer.py:249-255. */
  method RunAndSave(saving: Saving, env: Env, index: SearchIndex, manifest: Option<seq<string>>, file: ProgressFile,
                    start: nat, progress: seq<Entry>, now: string) returns (outcome: SessionOutcome)
    modifies index, file
    ensures var effect := RunEffect(saving, env, index.accepts, manifest, start, progress, old(index.documents), now);
      outcome == effect.outcome && file.present && file.entries == effect.log && index.documents == effect.documents
  {
    var i, isFinished, err := Run(env, index, manifest, start);
    var end := if saving == AsWritten then i else start + i;
    var saved := file.Save(progress, end, isFinished, now);
    if err.Some? {
      return Reraised(err.value);
    }
    return Done;
  }

  /** prj3/indexer.py:237-255; with `AsWritten` the session saves what line
      252 saves, with `Absolute` the line made absolute. */
  method Session(saving: Saving, env: Env, index: SearchIndex, manifest: Option<seq<string>>, file: ProgressFile,
                 noLoad: bool, now: string) returns (outcome: SessionOutcome)
    modifies index, file
    ensures var plan := PlanOf(old(file.present), old(file.entries), noLoad);
      && (plan.Stop? ==>
            outcome == plan.outcome && file.present == old(file.present) &&
            file.entries == old(file.entries) && index.documents == old(index.documents))
      && (plan.Resume? ==>
            var effect := RunEffect(saving, env, index.accepts, manifest, plan.start, plan.progress, old(index.documents), now);
            outcome == effect.outcome && file.present && file.entries == effect.log && index.documents == effect.documents)
  {
    var start: nat := 0;
    var progress: seq<Entry> := [];
    if file.present && !noLoad {
      progress := file.Load();
      if |progress| == 0 {
        return EmptyProgress;
      }
      var prevRun := progress[|progress| - 1];
      if prevRun.isFinished {
        return AlreadyFinished;
      }
      start := prevRun.endLineNum;
    }
    outcome := RunAndSave(saving, env, index, manifest, file, start, progress, now);
  }

  /** With the absolute entry, the next session reads the manifest from the
      line at which the run stopped. */
  lemma ResumeEntryResumes(lines: seq<string>, start: nat, o: RunOutcome, now: string)
    requires o.i <= |SkipLines(lines, start)|
    ensures SkipLines(lines, ResumeEntry(start, o, now).endLineNum) == SkipLines(lines, start)[o.i..]
  {
    if start <= |lines| {
      assert lines[start..][o.i..] == lines[start + o.i..];
    }
  }

  /** As written, the next session reads the manifest from line `o.i` of the
      whole file: the `start` lines before the line at which the run stopped
      are read again, then the rest. */
  lemma ResumeEntryAsWrittenRewinds(lines: seq<string>, start: nat, o: RunOutcome, now: string)
    requires start + o.i <= |lines|
    ensures var again := lines[o.i..start + o.i];
      && |again| == start
      && SkipLines(lines, ResumeEntryAsWritten(start, o, now).endLineNum) == again + SkipLines(lines, start)[o.i..]
  {
    assert lines[start..][o.i..] == lines[start + o.i..];
    assert lines[o.i..] == lines[o.i..start + o.i] + lines[start + o.i..];
  }

  /** A finished session makes the next one stop at once; an unfinished one
      makes it resume at the line it saved, keeping the log. */
  lemma NextSession(entries: seq<Entry>, e: Entry, noLoad: bool)
    ensures PlanOf(true, entries + [e], noLoad) ==
      if noLoad then Resume(0, [])
      else if e.isFinished then Stop(AlreadyFinished)
      else Resume(e.endLineNum, entries + [e])
  {
  }

  /** Resuming at the saved line is right and loses nothing: the next session
      reads the manifest from the record at which this run stopped, every
      document the lines before that record contribute is stored, and the only
      document the next session may store a second time is that record's. A
      run that finished stored what every line contributes. `outs` stands for
      the outcomes of the lines left after the skip, over which `RunSpec`
      runs the pass when the manifest is readable. */
  lemma ResumeCovers(acc: Acceptor, outs: seq<LineOutcome>, lines: seq<string>, start: nat,
                     before: seq<IndexDocument>, now: string)
    requires |outs| == |SkipLines(lines, start)|
    ensures var o := Pass(acc, outs, before);
      var recs := SkipLines(lines, start);
      var e := ResumeEntry(start, o, now);
      && (o.isFinished <==> o.err.None?)
      && (o.isFinished ==> o.sent == Harvest(outs))
      && (!o.isFinished ==>
            && o.i < |recs|
            && SkipLines(lines, e.endLineNum) == recs[o.i..]
            && Harvest(outs[..o.i]) <= o.sent
            && o.sent <= Harvest(outs[..o.i + 1]))
  {
    var o := Pass(acc, outs, before);
    PassResume(acc, outs, before);
    if !o.isFinished {
      SkipLinesFurther(lines, start, o.i);
    }
  }

  /** A sequence squeezed between a prefix `a` of `c` and `c`, where `c` is
      at most one element longer than `a`, is one of the two. */
  lemma PrefixBetween(a: seq<IndexDocument>, c: seq<IndexDocument>, x: seq<IndexDocument>)
    requires a <= x && x <= c && |c| <= |a| + 1
    ensures x == a || x == c
  {
    if |x| == |a| {
      assert x == x[..|a|] == a;
    }
  }

  /** What the lines contribute, split at line `i`, and what line `i` adds. */
  lemma HarvestSplit(outs: seq<LineOutcome>, i: nat)
    requires i < |outs|
    ensures Harvest(outs) == Harvest(outs[..i]) + Harvest(outs[i..])
    ensures Harvest(outs[..i]) <= Harvest(outs[..i + 1])
    ensures |Harvest(outs[..i + 1])| <= |Harvest(outs[..i])| + 1
  {
    HarvestAppend(outs[..i], outs[i..]);
    assert outs[..i] + outs[i..] == outs;
    HarvestStep(outs, i);
  }

  /** A pass that stops, and a pass over the lines from where it stopped that
      finishes, store between them every line's document in line order, the
      stopping line's possibly twice. The second pass meets a search engine
      `acc2` that may now accept what `acc` refused: with the same engine and
      the same lines it would stop again at the same line. */
  lemma TwoPasses(acc: Acceptor, acc2: Acceptor, outs: seq<LineOutcome>, before: seq<IndexDocument>)
    requires var o1 := Pass(acc, outs, before);
      !o1.isFinished && o1.i <= |outs| && Pass(acc2, outs[o1.i..], before + o1.sent).isFinished
    ensures var o1 := Pass(acc, outs, before);
      var o2 := Pass(acc2, outs[o1.i..], before + o1.sent);
      && o1.i < |outs|
      && (|| o1.sent + o2.sent == Harvest(outs)
          || o1.sent + o2.sent == Harvest(outs[..o1.i + 1]) + Harvest(outs[o1.i..]))
  {
    var o1 := Pass(acc, outs, before);
    var i := o1.i;
    PassResume(acc, outs, before);
    var rest := outs[i..];
    var o2 := Pass(acc2, rest, before + o1.sent);
    PassResume(acc2, rest, before + o1.sent);
    assert o2.sent == Harvest(rest);
    HarvestSplit(outs, i);
    PrefixBetween(Harvest(outs[..i]), Harvest(outs[..i + 1]), o1.sent);
  }

  /** A stopped run and the resumed session after it that finishes store,
      between them, every document of the lines after `start`, in line order;
      the only document stored twice is that of the line at which the first
      run stopped, when it had been stored already. The resumed session
      meets the search engine as `acc2`, which may accept what `acc`
      refused. */
  lemma TwoSessions(env: Env, acc: Acceptor, acc2: Acceptor, lines: seq<string>, start: nat,
                    before: seq<IndexDocument>, now: string)
    requires var o1 := RunSpec(env, acc, Some(lines), start, before);
      && !o1.isFinished
      && RunSpec(env, acc2, Some(lines), ResumeEntry(start, o1, now).endLineNum, before + o1.sent).isFinished
    ensures var outs := Outcomes(env, SkipLines(lines, start));
      var o1 := RunSpec(env, acc, Some(lines), start, before);
      var o2 := RunSpec(env, acc2, Some(lines), ResumeEntry(start, o1, now).endLineNum, before + o1.sent);
      && o1.i < |outs|
      && (|| o1.sent + o2.sent == Harvest(outs)
          || o1.sent + o2.sent == Harvest(outs[..o1.i + 1]) + Harvest(outs[o1.i..]))
  {
    var recs := SkipLines(lines, start);
    var outs := Outcomes(env, recs);
    var o1 := Pass(acc, outs, before);
    PassResume(acc, outs, before);
    ResumeEntryResumes(lines, start, o1, now);
    OutcomesSuffix(env, recs, o1.i);
    TwoPasses(acc, acc2, outs, before);
  }

  /** The two passes of `TwoPasses` happen: a document the engine refuses
      stops the first pass at its line with nothing stored, and an engine
      that then accepts it lets the pass resumed at that line finish with
      the document stored. */
  lemma RefusedThenAccepted(acc: Acceptor, acc2: Acceptor, doc: IndexDocument, before: seq<IndexDocument>)
    requires !acc(before, doc) && acc2(before, doc)
    ensures Pass(acc, [ToSubmit(doc)], before) == RunOutcome(0, false, Some(SubmissionFailed), [])
    ensures Pass(acc2, [ToSubmit(doc)], before) == RunOutcome(0, true, None, [doc])
  {
    var outs := [ToSubmit(doc)];
    assert before + [] == before && [] + [doc] == [doc];
    assert Go(acc2, outs, 1, 0, before, [doc]) == RunOutcome(0, true, None, [doc]);
  }

  /** The line of the example below holds the record a/b at http://u. */
  lemma SampleLine()
    ensures ParseLine("a/b http://u") == Ok(Record("a", "b", "http://u"))
  {
    var r := Record("a", "b", "http://u");
    assert WellFormed(r) by {
      assert NoSpace("a") && NoSpace("b");
      assert !IsSpace('h') && !IsSpace('u');
    }
    assert "" + Key(r) + " " + r.url + "" == "a/b http://u";
    ParseLineOfRecord(r, "", " ", "");
  }

  /** Finding: as written, a session that resumes at line 2 and fails at the
      first record it reads saves line 0, so the session after it reads the
      manifest from its first line again instead of from line 2. */
  lemma AsWrittenRewinds()
    ensures var line := "a/b http://u";
      var lines := [line, line, line];
      var env := Env("d", (p: string) => Extract.Faulty);
      var acc: Acceptor := (h: seq<IndexDocument>, d: IndexDocument) => true;
      var o := RunSpec(env, acc, Some(lines), 2, []);
      && o == RunOutcome(0, false, Some(ExtractionFault), [])
      && ResumeEntryAsWritten(2, o, "t").endLineNum == 0
      && SkipLines(lines, ResumeEntryAsWritten(2, o, "t").endLineNum) != SkipLines(lines, 2)[o.i..]
      && ResumeEntry(2, o, "t").endLineNum == 2
  {
    var line := "a/b http://u";
    SampleLine();
    var env := Env("d", (p: string) => Extract.Faulty);
    var acc: Acceptor := (h: seq<IndexDocument>, d: IndexDocument) => true;
    assert Line(env, line) == PageFault;
    OutcomesAt(env, [line], 0);
    assert Outcomes(env, [line]) == [PageFault];
    var lines := [line, line, line];
    assert SkipLines(lines, 2) == [line];
    assert Pass(acc, [PageFault], []) == RunOutcome(0, false, Some(ExtractionFault), []);
  }
}
