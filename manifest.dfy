/** The book-keeping file ("manifest"): one page per line, written
    `<level_1>/<level_2><whitespace><url>`; `get_raw_data_path` and
    `get_record_generator` of prj3/indexer.py. */
module Manifest {
  import opened Wrappers
  import opened Text

  /** One manifest line: the two directory levels that locate the raw page and
      the page's original URL. */
  datatype Record = Record(level1: string, level2: string, url: string)

  /** Why `level, url = line.strip().split(None, 1)` or
      `level_1, level_2 = level.split('/')` raises ValueError. */
  datatype FormatError =
    | NotKeyAndUrl(fields: nat)             // the stripped line has 0 or 1 fields
    | NotTwoLevels(key: string, parts: nat) // the key does not contain exactly one '/'

  /** What a line the reader accepts looks like: levels without '/' or
      whitespace, and a non-empty URL with no whitespace at either end (inner
      whitespace is kept). */
  predicate WellFormed(r: Record) {
    && '/' !in r.level1 && '/' !in r.level2
    && NoSpace(r.level1) && NoSpace(r.level2)
    && r.url != [] && IsStripped(r.url)
  }

  function Key(r: Record): string {
    r.level1 + "/" + r.level2
  }

  /** Parsing one line, prj3/indexer.py:28-29. */
  function ParseLine(line: string): (r: Result<Record, FormatError>)
  {
    ParseFields(Strip(line))
  }

  /** The two splits of the stripped line: `split(None, 1)` into the key and
      the URL, then `split('/')` of the key into the two levels. */
  function ParseFields(s: string): (r: Result<Record, FormatError>)
  {
    var fields := SplitFirst(s);
    if |fields| != 2 then Err(NotKeyAndUrl(|fields|))
    else
      var levels := SplitOn(fields[0], '/');
      if |levels| != 2 then Err(NotTwoLevels(fields[0], |levels|))
      else Ok(Record(levels[0], levels[1], fields[1]))
  }

  lemma SplitFirstOfKeyAndUrl(key: string, gap: string, url: string)
    requires key != [] && NoSpace(key)
    requires gap != [] && AllSpace(gap)
    requires url != [] && !IsSpace(url[0])
    ensures SplitFirst(key + gap + url) == [key, url]
  {
    var s := key + gap + url;
    var e := |key| + |gap|;
    assert s[0] == key[0];
    assert SkipSpace(s, 0) == 0;
    assert forall k :: 0 <= k < |key| ==> s[k] == key[k];
    assert s[|key|] == gap[0];
    assert SkipWord(s, 0) == |key|;
    assert forall k :: |key| <= k < e ==> s[k] == gap[k - |key|];
    assert s[e] == url[0];
    assert SkipSpace(s, |key|) == e;
    assert s[0..|key|] == key;
    assert s[e..] == url;
  }

  lemma KeyOfWellFormed(r: Record)
    requires WellFormed(r)
    ensures Key(r) != [] && NoSpace(Key(r))
    ensures SplitOn(Key(r), '/') == [r.level1, r.level2]
  {
    var key := Key(r);
    forall k | 0 <= k < |key| ensures !IsSpace(key[k]) {
      if k < |r.level1| {
        assert key[k] == r.level1[k];
      } else if k > |r.level1| {
        assert key[k] == r.level2[k - |r.level1| - 1];
      }
    }
    SplitOnFirst(r.level1, r.level2, '/');
    SplitOnNone(r.level2, '/');
  }

  /** Round trip: a well-formed record written as a manifest line (any
      non-empty whitespace between key and URL, any whitespace around the
      line, such as its newline) parses back to the same record. */
  lemma ParseLineOfRecord(r: Record, lead: string, gap: string, trail: string)
    requires WellFormed(r)
    requires AllSpace(lead) && AllSpace(trail)
    requires gap != [] && AllSpace(gap)
    ensures ParseLine(lead + Key(r) + gap + r.url + trail) == Ok(r)
  {
    var key := Key(r);
    KeyOfWellFormed(r);
    var body := key + gap + r.url;
    assert IsStripped(body) by {
      assert body[0] == key[0];
      assert body[|body| - 1] == r.url[|r.url| - 1];
    }
    assert lead + Key(r) + gap + r.url + trail == lead + body + trail;
    StripSurrounded(lead, body, trail);
    SplitFirstOfKeyAndUrl(key, gap, r.url);
  }

  /** `split(None, 1)` of a stripped string with two fields: a word, a
      non-empty whitespace run, and a stripped rest. */
  lemma SplitFirstSound(s: string)
    requires IsStripped(s) && |SplitFirst(s)| == 2
    ensures var f := SplitFirst(s);
      && f[0] != [] && NoSpace(f[0]) && f[1] != [] && IsStripped(f[1])
      && |f[0]| < |s| - |f[1]|
      && AllSpace(s[|f[0]|..|s| - |f[1]|])
      && s == f[0] + s[|f[0]|..|s| - |f[1]|] + f[1]
  {
    assert SkipSpace(s, 0) == 0;
    var b := SkipWord(s, 0);
    var c := SkipSpace(s, b);
    var f0, g, f1 := s[0..b], s[b..c], s[c..];
    assert SplitFirst(s) == [f0, f1];
    assert IsSpace(s[b]);
    assert b < c;
    assert NoSpace(f0) by {
      forall k | 0 <= k < |f0| ensures !IsSpace(f0[k]) { assert f0[k] == s[k]; }
    }
    assert AllSpace(g) by {
      forall k | 0 <= k < |g| ensures IsSpace(g[k]) { assert g[k] == s[b + k]; }
    }
    assert f1[0] == s[c] && f1[|f1| - 1] == s[|s| - 1];
    assert s == f0 + g + f1;
  }

  /** A key that splits on '/' into two parts is those parts around one '/'. */
  lemma KeySound(key: string)
    requires NoSpace(key) && |SplitOn(key, '/')| == 2
    ensures var p := SplitOn(key, '/');
      key == p[0] + "/" + p[1] && NoSpace(p[0]) && NoSpace(p[1])
  {
    var p := SplitOn(key, '/');
    SplitOnJoin(key, '/');
    assert key == p[0] + "/" + p[1];
    forall j | 0 <= j < |p[0]| ensures !IsSpace(p[0][j]) {
      assert p[0][j] == key[j];
    }
    forall j | 0 <= j < |p[1]| ensures !IsSpace(p[1][j]) {
      assert p[1][j] == key[j + |p[0]| + 1];
    }
  }

  /** Soundness: whatever the reader accepts is well formed, and the stripped
      line is the key, a whitespace run and the URL. */
  lemma ParseLineSound(line: string)
    requires ParseLine(line).Ok?
    ensures var r := ParseLine(line).value;
      WellFormed(r) &&
      exists gap :: gap != [] && AllSpace(gap) && Strip(line) == Key(r) + gap + r.url
  {
    ParseFieldsSound(Strip(line));
  }

  /** Soundness of the two splits on a stripped string. */
  lemma ParseFieldsSound(s: string)
    requires IsStripped(s) && ParseFields(s).Ok?
    ensures var r := ParseFields(s).value;
      WellFormed(r) &&
      exists gap :: gap != [] && AllSpace(gap) && s == Key(r) + gap + r.url
  {
    var f := SplitFirst(s);
    SplitFirstSound(s);
    KeySound(f[0]);
    SplitOnParts(f[0], '/');
    var gap := s[|f[0]|..|s| - |f[1]|];
    assert s == Key(ParseFields(s).value) + gap + f[1];
  }

  /** The three ways a line is rejected. */
  lemma ParseLineErrors(line: string)
    ensures AllSpace(line) ==> ParseLine(line) == Err(NotKeyAndUrl(0))
    ensures (Strip(line) != [] && NoSpace(Strip(line))) ==> ParseLine(line) == Err(NotKeyAndUrl(1))
    ensures ParseLine(line).Err? && ParseLine(line).error.NotTwoLevels? ==>
      var key := ParseLine(line).error.key;
      SplitFirst(Strip(line))[0] == key && NoSpace(key) && |SplitOn(key, '/')| != 2
  {
    if AllSpace(line) {
      assert SkipSpace(line, 0) == |line|;
      assert Strip(line) == [];
    }
    ParseFieldsErrors(Strip(line));
  }

  /** The rejections of the two splits on a stripped string. */
  lemma ParseFieldsErrors(s: string)
    requires IsStripped(s)
    ensures s == [] ==> ParseFields(s) == Err(NotKeyAndUrl(0))
    ensures (s != [] && NoSpace(s)) ==> ParseFields(s) == Err(NotKeyAndUrl(1))
    ensures ParseFields(s).Err? && ParseFields(s).error.NotTwoLevels? ==>
      var key := ParseFields(s).error.key;
      SplitFirst(s)[0] == key && NoSpace(key) && |SplitOn(key, '/')| != 2
  {
    if s != [] && NoSpace(s) {
      assert SkipSpace(s, 0) == 0;
      assert SkipWord(s, 0) == |s|;
    }
    if |SplitFirst(s)| == 2 {
      SplitFirstSound(s);
    }
  }

  /** `os.path.join(a, b)` of POSIX paths: an absolute `b` replaces `a`, and a
      separator is added unless `a` is empty or already ends with one. */
  function PathJoin(a: string, b: string): string
  {
    if |b| > 0 && b[0] == '/' then b
    else if a == [] || a[|a| - 1] == '/' then a + b
    else a + "/" + b
  }

  /** `get_raw_data_path`, prj3/indexer.py:13-16. */
  function RawDataPath(rawDataDir: string, level1: string, level2: string): string
  {
    PathJoin(PathJoin(rawDataDir, level1), level2)
  }

  /** The directory part of a raw path: the directory, with a '/' added
      unless it is empty or already ends with one. */
  function DirPrefix(dir: string): string {
    if dir == [] || dir[|dir| - 1] == '/' then dir else dir + "/"
  }

  /** The part of a raw path after the directory: the two levels around one
      '/', or level 2 alone when level 1 is empty. */
  function LevelsPath(level1: string, level2: string): string {
    if level1 == [] then level2 else level1 + "/" + level2
  }

  /** For levels without '/', such as those of every record the reader
      accepts, the raw path is the directory part followed by the levels. */
  lemma RawDataPathLevels(rawDataDir: string, level1: string, level2: string)
    requires '/' !in level1 && '/' !in level2
    ensures RawDataPath(rawDataDir, level1, level2) == DirPrefix(rawDataDir) + LevelsPath(level1, level2)
  {
    var d := DirPrefix(rawDataDir);
    if level1 != [] {
      assert level1[0] in level1 && level1[|level1| - 1] in level1;
      var q := PathJoin(rawDataDir, level1);
      assert q == d + level1;
      assert q[|q| - 1] == level1[|level1| - 1];
    }
    if level2 != [] {
      assert level2[0] in level2;
    }
  }

  /** The levels part splits on '/' back into the levels it was made of. */
  lemma LevelsPathSplit(level1: string, level2: string)
    requires '/' !in level1 && '/' !in level2
    ensures SplitOn(LevelsPath(level1, level2), '/') == if level1 == [] then [level2] else [level1, level2]
  {
    SplitOnNone(level2, '/');
    if level1 != [] {
      SplitOnFirst(level1, level2, '/');
    }
  }

  /** Distinct records the reader accepts lead to distinct raw files, in any
      raw data directory. */
  lemma RawDataPathInjective(rawDataDir: string, a: Record, b: Record)
    requires WellFormed(a) && WellFormed(b)
    requires RawDataPath(rawDataDir, a.level1, a.level2) == RawDataPath(rawDataDir, b.level1, b.level2)
    ensures a.level1 == b.level1 && a.level2 == b.level2
  {
    RawDataPathLevels(rawDataDir, a.level1, a.level2);
    RawDataPathLevels(rawDataDir, b.level1, b.level2);
    var d := DirPrefix(rawDataDir);
    var pa, pb := LevelsPath(a.level1, a.level2), LevelsPath(b.level1, b.level2);
    assert pa == (d + pa)[|d|..] == (d + pb)[|d|..] == pb;
    LevelsPathSplit(a.level1, a.level2);
    LevelsPathSplit(b.level1, b.level2);
  }

  /** The lines left after skipping `skip` leading lines; a skip past the end
      leaves none. */
  function SkipLines(lines: seq<string>, skip: nat): (rest: seq<string>)
    ensures |rest| == if skip <= |lines| then |lines| - skip else 0
    ensures forall k :: 0 <= k < |rest| ==> rest[k] == lines[skip + k]
  {
    if skip <= |lines| then lines[skip..] else []
  }

  /** Skipping `k` more lines of what is left after a skip. */
  lemma SkipLinesFurther(lines: seq<string>, skip: nat, k: nat)
    requires k < |SkipLines(lines, skip)|
    ensures SkipLines(lines, skip + k) == SkipLines(lines, skip)[k..]
  {
    assert lines[skip..][k..] == lines[skip + k..];
  }

  /** What the generator yields for one line: a record, or the ValueError. */
  datatype Item = End | Yield(record: Record) | Malformed(error: FormatError)

  function ItemAt(line: string): Item
  {
    match ParseLine(line)
    case Ok(r) => Yield(r)
    case Err(e) => Malformed(e)
  }

  /** The generator object of `get_record_generator` over the lines of an open
      book-keeping file: `pos` is the file position (in lines) and `closed`
      says the generator has ended, by exhaustion or by raising. */
  class RecordStream {
    const lines: seq<string>
    var pos: nat
    var closed: bool

    ghost predicate Valid()
      reads this
    {
      pos <= |lines|
    }

    /** Opening the file and the skip loop, prj3/indexer.py:22-25. A skip of 0
        skips nothing; `next(f)` past the end of the file ends the generator,
        so a skip past the end leaves nothing to yield. */
    constructor (lines: seq<string>, skip: nat)
      ensures Valid() && this.lines == lines && !closed
      ensures pos == if skip <= |lines| then skip else |lines|
      ensures lines[pos..] == SkipLines(lines, skip)
    {
      this.lines := lines;
      new;
      var position, skipped := 0, 0;
      if skip > 0 {
        while skipped < skip && position < |lines|
          invariant position == skipped <= skip && position <= |lines|
        {
          position, skipped := position + 1, skipped + 1;
        }
      }
      pos, closed := position, false;
    }

    /** One step of the line loop, prj3/indexer.py:27-31: the next line's
        record, or the ValueError that ends the generator, or the end. */
    method Next() returns (item: Item)
      requires Valid()
      modifies this
      ensures Valid()
      ensures old(closed) || old(pos) == |lines| ==> item == End && closed && pos == old(pos)
      ensures !old(closed) && old(pos) < |lines| ==>
        item == ItemAt(lines[old(pos)]) && pos == old(pos) + 1 && closed == item.Malformed?
    {
      if closed || pos == |lines| {
        closed := true;
        return End;
      }
      var line := lines[pos];
      pos := pos + 1;
      var parsed := ParseLine(line);
      match parsed
      case Ok(r) =>
        item := Yield(r);
      case Err(e) =>
        item := Malformed(e);
        closed := true;
    }
  }
}
