/** The search front-end of prj3/uci_scout/uci_scout/app.py: the `max_length`
    template filter, which shortens a snippet at a word boundary, and the
    result offset of a page of search results. */
module App {
  import opened Wrappers
  import opened Text

  /** What `max_length` raises: `trimmed[-1]` on an empty string. */
  datatype FilterError = IndexError

  /** `s[-n:]` for `n <= len(s)`: the last `n` characters, and the whole string
      when `n` is 0 (`-0` is `0`). */
  function LastN(s: string, n: nat): (r: string)
    requires n <= |s|
  {
    if n == 0 then s else s[|s| - n..]
  }

  predicate NoAlnum(s: string) {
    forall k :: 0 <= k < |s| ==> !IsAlnum(s[k])
  }

  /** Where the first loop stops when it cuts `t` down: the length of the
      longest prefix of `t` that ends in whitespace, `None` when `t` has
      none (the loop then empties `t` and `trimmed[-1]` raises). */
  function SpaceEnd(t: string): (p: Option<nat>)
    ensures p.None? <==> NoSpace(t)
    ensures p.Some? ==> 0 < p.value <= |t| && IsSpace(t[p.value - 1])
    ensures p.Some? ==> forall k :: p.value <= k < |t| ==> !IsSpace(t[k])
  {
    if t == [] then None
    else if IsSpace(t[|t| - 1]) then Some(|t|)
    else
      var p := SpaceEnd(t[..|t| - 1]);
      assert t[..|t| - 1] + [t[|t| - 1]] == t;
      p
  }

  /** Where the second loop stops: the length of the longest prefix of `t`
      that ends in a letter or digit, `None` when `t` has none. */
  function AlnumEnd(t: string): (q: Option<nat>)
    ensures q.None? <==> NoAlnum(t)
    ensures q.Some? ==> 0 < q.value <= |t| && IsAlnum(t[q.value - 1])
    ensures q.Some? ==> forall k :: q.value <= k < |t| ==> !IsAlnum(t[k])
  {
    if t == [] then None
    else if IsAlnum(t[|t| - 1]) then Some(|t|)
    else
      var q := AlnumEnd(t[..|t| - 1]);
      assert t[..|t| - 1] + [t[|t| - 1]] == t;
      q
  }

  /** Where the two loops leave `trimmed` when they start from `t`: cut back
      to the last whitespace, drop it, cut back to the last letter or digit;
      `None` when either loop runs dry. */
  function WordCut(t: string): Option<nat>
  {
    match SpaceEnd(t)
    case None => None
    case Some(p) => AlnumEnd(t[..p - 1])
  }

  /** `t` holds a letter or digit somewhere before a whitespace character. */
  predicate CanTrim(t: string) {
    exists a, b :: 0 <= a < b < |t| && IsAlnum(t[a]) && IsSpace(t[b])
  }

  /** The loops run dry exactly when no letter or digit comes before a
      whitespace character. */
  lemma WordCutDefined(t: string)
    ensures WordCut(t).Some? <==> CanTrim(t)
  {
    match SpaceEnd(t)
    case None =>
    case Some(p) =>
      var u := t[..p - 1];
      if AlnumEnd(u).Some? {
        var q := AlnumEnd(u).value;
        assert IsAlnum(t[q - 1]) && IsSpace(t[p - 1]);
      }
      if CanTrim(t) {
        var a, b :| 0 <= a < b < |t| && IsAlnum(t[a]) && IsSpace(t[b]);
        assert u[a] == t[a];
      }
  }

  /** What the cut keeps: a prefix of `t` that ends in a letter or digit and
      is followed by characters that are neither, then by the last
      whitespace of `t`. */
  lemma WordCutShape(t: string)
    requires WordCut(t).Some?
    ensures var q := WordCut(t).value;
      var b := SpaceEnd(t).value - 1;
      && 0 < q <= b < |t| && IsAlnum(t[q - 1]) && IsSpace(t[b])
      && (forall k :: q <= k < b ==> !IsAlnum(t[k]))
      && (forall k :: b < k < |t| ==> !IsSpace(t[k]))
  {
    var p := SpaceEnd(t).value;
    var u := t[..p - 1];
    var q := AlnumEnd(u).value;
    assert u[q - 1] == t[q - 1];
    forall k | q <= k < p - 1
      ensures !IsAlnum(t[k])
    {
      assert u[k] == t[k];
    }
  }

  /** `max_length(s, n, postfix)`, prj3/uci_scout/uci_scout/app.py:19-37:
      short strings are kept; a string whose last `n` characters hold no
      whitespace is cut at `n`; otherwise its first `n + 1` characters are
      cut at a word boundary, and the filter raises when there is none. */
  function MaxLengthSpec(s: string, n: nat, postfix: string): Result<string, FilterError>
  {
    if |s| < n then Ok(s)
    else if !HasSpace(LastN(s, n)) then Ok(s[..n] + postfix)
    else
      var t := Take(s, n + 1);
      match WordCut(t)
      case None => Err(IndexError)
      case Some(q) => Ok(t[..q] + postfix)
  }

  /** The first loop of `max_length` (prj3/uci_scout/uci_scout/app.py:29-30):
      drop the last character until the last one is whitespace; `None` when
      the string runs out (`trimmed[-1]` raises). */
  method CutToSpace(t: string) returns (r: Option<string>)
    ensures r.None? <==> SpaceEnd(t).None?
    ensures r.Some? ==> r.value == t[..SpaceEnd(t).value]
  {
    var trimmed := t;
    while trimmed == [] || !IsSpace(trimmed[|trimmed| - 1])
      invariant trimmed <= t
      invariant SpaceEnd(trimmed) == SpaceEnd(t)
      decreases |trimmed|
    {
      if trimmed == [] {
        return None;
      }
      trimmed := trimmed[..|trimmed| - 1];
    }
    return Some(trimmed);
  }

  /** The second loop (prj3/uci_scout/uci_scout/app.py:34-35): drop the last
      character until the last one is a letter or digit. */
  method CutToAlnum(t: string) returns (r: Option<string>)
    ensures r.None? <==> AlnumEnd(t).None?
    ensures r.Some? ==> r.value == t[..AlnumEnd(t).value]
  {
    var trimmed := t;
    while trimmed == [] || !IsAlnum(trimmed[|trimmed| - 1])
      invariant trimmed <= t
      invariant AlnumEnd(trimmed) == AlnumEnd(t)
      decreases |trimmed|
    {
      if trimmed == [] {
        return None;
      }
      trimmed := trimmed[..|trimmed| - 1];
    }
    return Some(trimmed);
  }

  /** The filter as the source writes it: the two tests, then the two loops,
      which drop one character at a time, with the whitespace they stop at
      dropped in between. */
  method MaxLength(s: string, n: nat, postfix: string) returns (r: Result<string, FilterError>)
    ensures r == MaxLengthSpec(s, n, postfix)
  {
    if |s| < n {
      return Ok(s);
    }
    if !HasSpace(LastN(s, n)) {
      return Ok(s[..n] + postfix);
    }
    var trimmed := Take(s, n + 1);
    // Cut until the next whitespace.
    var cut := CutToSpace(trimmed);
    if cut.None? {
      return Err(IndexError);
    }
    // Cut until the next alphanumeric.
    ghost var p := SpaceEnd(trimmed).value;
    assert cut.value[..|cut.value| - 1] == trimmed[..p - 1];
    cut := CutToAlnum(cut.value[..|cut.value| - 1]);
    if cut.None? {
      return Err(IndexError);
    }
    assert cut.value == trimmed[..AlnumEnd(trimmed[..p - 1]).value];
    return Ok(cut.value + postfix);
  }

  /** The filter raises exactly when it reaches the loops with a first `n + 1`
      characters that hold no letter or digit before a whitespace. */
  lemma MaxLengthDefined(s: string, n: nat, postfix: string)
    ensures MaxLengthSpec(s, n, postfix).Ok? <==>
      |s| < n || !HasSpace(LastN(s, n)) || CanTrim(Take(s, n + 1))
  {
    WordCutDefined(Take(s, n + 1));
  }

  /** The shape of every result: short strings come back unchanged; every
      other result is a prefix `t` of `s` of at most `n` characters followed
      by the postfix; when the last `n` characters hold whitespace, `t` ends
      in a letter or digit, and after it come only characters that are
      neither, then the last whitespace of the first `n + 1` characters. */
  lemma MaxLengthShape(s: string, n: nat, postfix: string)
    requires MaxLengthSpec(s, n, postfix).Ok?
    ensures var r := MaxLengthSpec(s, n, postfix).value;
      && (|s| < n ==> r == s)
      && (|s| >= n ==>
            && |postfix| <= |r| <= n + |postfix|
            && r[|r| - |postfix|..] == postfix
            && var t := r[..|r| - |postfix|];
            && t <= s
            && (!HasSpace(LastN(s, n)) ==> t == s[..n])
            && (HasSpace(LastN(s, n)) ==>
                  && t != [] && IsAlnum(t[|t| - 1])
                  && exists b :: |t| <= b < |Take(s, n + 1)| &&
                       IsSpace(s[b]) && (forall k :: |t| <= k < b ==> !IsAlnum(s[k])) &&
                       (forall k :: b < k < |Take(s, n + 1)| ==> !IsSpace(s[k]))))
  {
    var r := MaxLengthSpec(s, n, postfix).value;
    if |s| >= n {
      var t: string;
      if HasSpace(LastN(s, n)) {
        var w := Take(s, n + 1);
        t := w[..WordCut(w).value];
        WordCutOfPrefix(s, n);
      } else {
        t := s[..n];
      }
      assert r == t + postfix;
      assert r[..|r| - |postfix|] == t;
      assert r[|r| - |postfix|..] == postfix;
    }
  }

  /** The cut of the first `n + 1` characters of `s`, read in `s`. */
  lemma WordCutOfPrefix(s: string, n: nat)
    requires WordCut(Take(s, n + 1)).Some?
    ensures var w := Take(s, n + 1);
      var t := w[..WordCut(w).value];
      && t <= s && |t| <= n
      && t != [] && IsAlnum(t[|t| - 1])
      && exists b :: |t| <= b < |w| &&
           IsSpace(s[b]) && (forall k :: |t| <= k < b ==> !IsAlnum(s[k])) &&
           (forall k :: b < k < |w| ==> !IsSpace(s[k]))
  {
    var w := Take(s, n + 1);
    WordCutShape(w);
    var q := WordCut(w).value;
    var b := SpaceEnd(w).value - 1;
    CutInPrefix(s, w, q, b);
  }

  /** A cut of a prefix `w` of `s`, read in `s`. */
  lemma CutInPrefix(s: string, w: string, q: nat, b: nat)
    requires w <= s && 0 < q <= b < |w|
    requires IsAlnum(w[q - 1]) && IsSpace(w[b])
    requires forall k :: q <= k < b ==> !IsAlnum(w[k])
    requires forall k :: b < k < |w| ==> !IsSpace(w[k])
    ensures var t := w[..q];
      && t <= s && t != [] && IsAlnum(t[|t| - 1])
      && IsSpace(s[b]) && (forall k :: |t| <= k < b ==> !IsAlnum(s[k]))
      && (forall k :: b < k < |w| ==> !IsSpace(s[k]))
  {
    assert w[..q][q - 1] == w[q - 1];
  }

  /** The output is never longer than `n` plus the postfix. */
  lemma MaxLengthBound(s: string, n: nat, postfix: string)
    requires MaxLengthSpec(s, n, postfix).Ok?
    ensures |MaxLengthSpec(s, n, postfix).value| <= n + |postfix|
  {
    MaxLengthShape(s, n, postfix);
  }

  /** Finding: the whitespace test looks at the last `n` characters but the
      loops cut the first `n + 1`, so a string whose end has a space and
      whose beginning has none raises, and so does one whose first word
      boundary has nothing but whitespace before it. */
  lemma MaxLengthRaises()
    ensures MaxLengthSpec("abcd e", 3, "...") == Err(IndexError)
    ensures MaxLengthSpec("  ab c", 3, "...") == Err(IndexError)
  {
    assert IsSpace("abcd e"[4]) && LastN("abcd e", 3) == "d e";
    assert NoSpace("abcd");
    assert Take("abcd e", 4) == "abcd";
    var s := "  ab c";
    assert IsSpace(s[4]) && LastN(s, 3) == "b c";
    var t := Take(s, 4);
    assert t == "  ab";
    assert SpaceEnd("  ") == Some(2);
    assert SpaceEnd("  a") == Some(2) by { assert "  a"[..2] == "  "; }
    assert SpaceEnd(t) == Some(2) by { assert t[..3] == "  a"; }
    assert t[..1] == " ";
    assert AlnumEnd(" ") == None by { assert AlnumEnd(" "[..0]) == None; }
  }

  /** The filter as evidently intended: a string whose first `n + 1`
      characters have no word boundary to cut at is cut at `n`, whatever its
      last characters hold. */
  function MaxLengthCorrected(s: string, n: nat, postfix: string): string
  {
    if |s| < n then s else CorrectedStem(s, n) + postfix
  }

  /** What the corrected filter keeps of a string of at least `n`
      characters, before the postfix. */
  function CorrectedStem(s: string, n: nat): string
    requires n <= |s|
  {
    var t := Take(s, n + 1);
    match WordCut(t)
    case None => s[..n]
    case Some(q) => t[..q]
  }

  /** The kept part is a prefix of at most `n` characters, cut at a word
      boundary whenever there is one and at `n` otherwise. */
  lemma CorrectedStemShape(s: string, n: nat)
    requires n <= |s|
    ensures var t := CorrectedStem(s, n);
      && t <= s && |t| <= n
      && (CanTrim(Take(s, n + 1)) ==>
            && t != [] && IsAlnum(t[|t| - 1])
            && exists b :: |t| <= b < |Take(s, n + 1)| &&
                 IsSpace(s[b]) && (forall k :: |t| <= k < b ==> !IsAlnum(s[k])) &&
                 (forall k :: b < k < |Take(s, n + 1)| ==> !IsSpace(s[k])))
      && (!CanTrim(Take(s, n + 1)) ==> t == s[..n])
  {
    var w := Take(s, n + 1);
    WordCutDefined(w);
    if CanTrim(w) {
      WordCutOfPrefix(s, n);
    }
  }

  /** A string followed by a postfix splits back into the two. */
  lemma PostfixSplit(t: string, postfix: string)
    ensures var r := t + postfix;
      |r| == |t| + |postfix| && r[..|t|] == t && r[|t|..] == postfix
  {
  }

  /** The corrected filter is defined on every string, keeps short ones,
      cuts every other one to a prefix of at most `n` characters followed by
      the postfix, and cuts at a word boundary whenever there is one. */
  lemma MaxLengthCorrectedShape(s: string, n: nat, postfix: string)
    ensures var r := MaxLengthCorrected(s, n, postfix);
      && (|s| < n ==> r == s)
      && (|s| >= n ==>
            && |postfix| <= |r| <= n + |postfix|
            && r[|r| - |postfix|..] == postfix
            && var t := r[..|r| - |postfix|];
            && t <= s
            && (CanTrim(Take(s, n + 1)) ==>
                  && t != [] && IsAlnum(t[|t| - 1])
                  && exists b :: |t| <= b < |Take(s, n + 1)| &&
                       IsSpace(s[b]) && (forall k :: |t| <= k < b ==> !IsAlnum(s[k])) &&
                       (forall k :: b < k < |Take(s, n + 1)| ==> !IsSpace(s[k])))
            && (!CanTrim(Take(s, n + 1)) ==> t == s[..n]))
  {
    if |s| >= n {
      CorrectedStemShape(s, n);
      PostfixSplit(CorrectedStem(s, n), postfix);
    }
  }

  /** Wherever the source cuts at a word boundary without raising, the
      corrected filter gives the same string. */
  lemma MaxLengthCorrectedAgrees(s: string, n: nat, postfix: string)
    requires MaxLengthSpec(s, n, postfix).Ok?
    requires |s| < n || HasSpace(LastN(s, n))
    ensures MaxLengthCorrected(s, n, postfix) == MaxLengthSpec(s, n, postfix).value
  {
  }

  /** Results per page of the search view. */
  const PerPage: nat := 10

  /** `(page - 1) * per_page`, prj3/uci_scout/uci_scout/app.py:55-57: the number
      of results before the requested page. */
  function Offset(page: int): int {
    (page - 1) * PerPage
  }

  /** The page that shows result number `k` (counted from 0). */
  function PageOf(k: nat): int {
    k / PerPage + 1
  }

  /** Page 1 starts at the first result; each page starts where the one before
      it ends, so the pages from 1 on show every result exactly once; a page
      below 1 asks for a negative offset. */
  lemma OffsetPages(page: int, k: nat)
    ensures Offset(1) == 0
    ensures Offset(page + 1) == Offset(page) + PerPage
    ensures page < 1 <==> Offset(page) < 0
    ensures Offset(PageOf(k)) <= k < Offset(PageOf(k)) + PerPage
    ensures page >= 1 && Offset(page) <= k < Offset(page) + PerPage ==> page == PageOf(k)
  {
  }
}
