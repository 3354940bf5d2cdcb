/** The Python `str` operations the core relies on, over ASCII characters:
    `isspace`, `isalnum`, `strip()`, `split()`, `split(None, 1)`, `split('/')`,
    `' '.join(...)` and slicing a prefix. The scanning functions work on an index
    into the string rather than on slices of it. */
module Text {

  /** `c.isspace()` for a byte string: space, and the five control characters
      from tab to carriage return (tab, line feed, vertical tab, form feed,
      carriage return); also the class `\s` of the `re` module. */
  predicate IsSpace(c: char) {
    c == ' ' || ('\t' <= c <= '\r')
  }

  /** `c.isalnum()` for ASCII. */
  predicate IsAlnum(c: char) {
    ('a' <= c <= 'z') || ('A' <= c <= 'Z') || ('0' <= c <= '9')
  }

  predicate NoSpace(s: string) {
    forall k :: 0 <= k < |s| ==> !IsSpace(s[k])
  }

  predicate AllSpace(s: string) {
    forall k :: 0 <= k < |s| ==> IsSpace(s[k])
  }

  predicate HasSpace(s: string) {
    exists k :: 0 <= k < |s| && IsSpace(s[k])
  }

  /** No whitespace at either end. */
  predicate IsStripped(s: string) {
    s == [] || (!IsSpace(s[0]) && !IsSpace(s[|s| - 1]))
  }

  /** The end of the whitespace run that starts at `i`. */
  function SkipSpace(s: string, i: nat): (j: nat)
    requires i <= |s|
    ensures i <= j <= |s|
    ensures forall k :: i <= k < j ==> IsSpace(s[k])
    ensures j < |s| ==> !IsSpace(s[j])
    decreases |s| - i
  {
    if i < |s| && IsSpace(s[i]) then SkipSpace(s, i + 1) else i
  }

  /** The end of the run of non-whitespace characters that starts at `i`. */
  function SkipWord(s: string, i: nat): (j: nat)
    requires i <= |s|
    ensures i <= j <= |s|
    ensures forall k :: i <= k < j ==> !IsSpace(s[k])
    ensures j < |s| ==> IsSpace(s[j])
    decreases |s| - i
  {
    if i < |s| && !IsSpace(s[i]) then SkipWord(s, i + 1) else i
  }

  /** The start of the whitespace run that ends at `j`. */
  function SkipSpaceBack(s: string, j: nat): (i: nat)
    requires j <= |s|
    ensures i <= j
    ensures forall k :: i <= k < j ==> IsSpace(s[k])
    ensures 0 < i ==> !IsSpace(s[i - 1])
  {
    if 0 < j && IsSpace(s[j - 1]) then SkipSpaceBack(s, j - 1) else j
  }

  /** `s.strip()` */
  function Strip(s: string): (r: string)
    ensures IsStripped(r)
  {
    var a := SkipSpace(s, 0);
    var b := SkipSpaceBack(s, |s|);
    if b <= a then "" else s[a..b]
  }

  /** `strip()` keeps the middle of `s` between two all-whitespace ends. */
  lemma StripMiddle(s: string)
    ensures exists a, b :: 0 <= a <= b <= |s| && Strip(s) == s[a..b] && AllSpace(s[..a]) && AllSpace(s[b..])
  {
    var a := SkipSpace(s, 0);
    var b := SkipSpaceBack(s, |s|);
    if b <= a {
      assert Strip(s) == s[a..a] && AllSpace(s[..a]) && AllSpace(s[a..]);
    } else {
      assert Strip(s) == s[a..b] && AllSpace(s[..a]) && AllSpace(s[b..]);
    }
  }

  /** `strip()` removes exactly the whitespace around a stripped middle. */
  lemma StripSurrounded(a: string, x: string, b: string)
    requires AllSpace(a) && AllSpace(b)
    requires IsStripped(x)
    ensures Strip(a + x + b) == x
  {
    var s := a + x + b;
    var i := SkipSpace(s, 0);
    var j := SkipSpaceBack(s, |s|);
    if x == [] {
      assert AllSpace(s);
      assert i == |s|;
    } else {
      assert s[|a|] == x[0];
      assert s[|a| + |x| - 1] == x[|x| - 1];
      assert i == |a|;
      assert j == |a| + |x|;
      assert s[i..j] == x;
    }
  }

  /** A string with no whitespace at either end is its own `strip()`. */
  lemma StripNoop(s: string)
    requires IsStripped(s)
    ensures Strip(s) == s
  {
    assert [] + s + [] == s;
    StripSurrounded([], s, []);
  }

  /** `strip()` is idempotent. */
  lemma StripIdempotent(s: string)
    ensures Strip(Strip(s)) == Strip(s)
  {
    StripNoop(Strip(s));
  }

  /** `s.split()` from index `i` on: the maximal runs of non-whitespace
      characters, in order. */
  function WordsFrom(s: string, i: nat): seq<string>
    requires i <= |s|
    decreases |s| - i
  {
    var a := SkipSpace(s, i);
    if a == |s| then []
    else
      var b := SkipWord(s, a);
      [s[a..b]] + WordsFrom(s, b)
  }

  /** `s.split()` */
  function Words(s: string): seq<string>
  {
    WordsFrom(s, 0)
  }

  /** `' '.join(ws)` */
  function JoinWords(ws: seq<string>): string
  {
    if ws == [] then ""
    else if |ws| == 1 then ws[0]
    else ws[0] + " " + JoinWords(ws[1..])
  }

  /** `' '.join(s.split())`: whitespace runs collapsed to one space, ends removed. */
  function Collapse(s: string): string
  {
    JoinWords(Words(s))
  }

  /** The shape of collapsed text: the only whitespace is a single ' ' with a
      non-space character on each side. In particular no leading or trailing
      whitespace and no run of two spaces. */
  predicate IsCollapsed(s: string) {
    forall k :: 0 <= k < |s| && IsSpace(s[k]) ==>
      s[k] == ' ' && 0 < k < |s| - 1 && !IsSpace(s[k - 1]) && !IsSpace(s[k + 1])
  }

  predicate AreWords(ws: seq<string>) {
    forall k :: 0 <= k < |ws| ==> ws[k] != [] && NoSpace(ws[k])
  }

  /** Every field of `split()` is a non-empty run without whitespace. */
  lemma {:induction false} WordsFromAreWords(s: string, i: nat)
    requires i <= |s|
    ensures AreWords(WordsFrom(s, i))
    decreases |s| - i
  {
    var a := SkipSpace(s, i);
    if a < |s| {
      var b := SkipWord(s, a);
      WordsFromAreWords(s, b);
      var ws := WordsFrom(s, i);
      var w := s[a..b];
      assert w != [] && NoSpace(w);
      forall j | 0 <= j < |ws| ensures ws[j] != [] && NoSpace(ws[j]) {
        if j > 0 {
          assert ws[j] == WordsFrom(s, b)[j - 1];
        }
      }
    }
  }

  lemma {:induction false} JoinWordsCollapsed(ws: seq<string>)
    requires AreWords(ws)
    ensures IsCollapsed(JoinWords(ws))
    ensures ws != [] ==> JoinWords(ws) != [] && !IsSpace(JoinWords(ws)[0])
  {
    if |ws| > 1 {
      JoinWordsCollapsed(ws[1..]);
      var w, rest := ws[0], JoinWords(ws[1..]);
      var s := w + " " + rest;
      assert s == JoinWords(ws);
      assert forall k :: 0 <= k < |w| ==> s[k] == w[k];
      assert forall k :: |w| < k < |s| ==> s[k] == rest[k - |w| - 1];
      forall k | 0 <= k < |s| && IsSpace(s[k])
        ensures s[k] == ' ' && 0 < k < |s| - 1 && !IsSpace(s[k - 1]) && !IsSpace(s[k + 1])
      {
        if k > |w| + 1 {
          assert s[k - 1] == rest[k - |w| - 2];
        }
      }
    }
  }

  /** The body field's promise: collapsing whitespace yields collapsed text. */
  lemma CollapseShape(s: string)
    ensures IsCollapsed(Collapse(s))
    ensures IsStripped(Collapse(s))
  {
    WordsFromAreWords(s, 0);
    JoinWordsCollapsed(Words(s));
    var c := Collapse(s);
    if c != [] {
      assert !IsSpace(c[0]);
      assert !IsSpace(c[|c| - 1]);
    }
  }

  /** A word at index `i` that ends at whitespace or at the end is the first
      field of the split from `i`. */
  lemma WordsFromWord(s: string, i: nat, w: string)
    requires i + |w| <= |s| && w != [] && NoSpace(w)
    requires s[i..i + |w|] == w
    requires i + |w| == |s| || IsSpace(s[i + |w|])
    ensures WordsFrom(s, i) == [w] + WordsFrom(s, i + |w|)
  {
    assert s[i] == w[0];
    assert SkipSpace(s, i) == i;
    assert forall k :: i <= k < i + |w| ==> s[k] == w[k - i];
    assert SkipWord(s, i) == i + |w|;
  }

  /** Leading whitespace does not change the split. */
  lemma WordsFromSpace(s: string, i: nat)
    requires i < |s| && IsSpace(s[i])
    ensures WordsFrom(s, i) == WordsFrom(s, i + 1)
  {
    assert SkipSpace(s, i) == SkipSpace(s, i + 1);
  }

  /** Where the first of several joined words sits in a string. */
  lemma JoinWordsAt(s: string, i: nat, ws: seq<string>)
    requires i <= |s| && |ws| > 1
    requires s[i..] == JoinWords(ws)
    ensures i + |ws[0]| < |s|
    ensures s[i..i + |ws[0]|] == ws[0]
    ensures s[i + |ws[0]|] == ' '
    ensures s[i + |ws[0]| + 1..] == JoinWords(ws[1..])
  {
    var w := ws[0];
    var t := s[i..];
    assert t == w + " " + JoinWords(ws[1..]);
    assert t[..|w|] == w;
    assert s[i..i + |w|] == t[..|w|];
    assert t[|w|] == ' ';
    assert t[|w| + 1..] == JoinWords(ws[1..]);
  }

  lemma AreWordsTail(ws: seq<string>)
    requires ws != [] && AreWords(ws)
    ensures AreWords(ws[1..])
  {
    var tail := ws[1..];
    forall k | 0 <= k < |tail| ensures tail[k] != [] && NoSpace(tail[k]) {
      assert tail[k] == ws[k + 1];
    }
  }

  /** Splitting, from index `i`, a string whose rest is joined words gives the
      words back. */
  lemma {:induction false} WordsFromJoin(s: string, i: nat, ws: seq<string>)
    requires i <= |s| && AreWords(ws)
    requires s[i..] == JoinWords(ws)
    ensures WordsFrom(s, i) == ws
    decreases ws
  {
    if ws == [] {
      assert SkipSpace(s, i) == |s|;
    } else if |ws| == 1 {
      WordsFromWord(s, i, ws[0]);
      assert SkipSpace(s, |s|) == |s|;
    } else {
      var w, j := ws[0], i + |ws[0]|;
      JoinWordsAt(s, i, ws);
      AreWordsTail(ws);
      WordsFromWord(s, i, w);
      WordsFromSpace(s, j);
      WordsFromJoin(s, j + 1, ws[1..]);
      assert WordsFrom(s, i) == [w] + ws[1..];
      assert [w] + ws[1..] == ws;
    }
  }

  /** Splitting joined words gives the words back. */
  lemma WordsOfJoin(ws: seq<string>)
    requires AreWords(ws)
    ensures Words(JoinWords(ws)) == ws
  {
    WordsFromJoin(JoinWords(ws), 0, ws);
  }

  /** Collapsing keeps exactly the words of the input, so it is idempotent. */
  lemma CollapseKeepsWords(s: string)
    ensures Words(Collapse(s)) == Words(s)
    ensures Collapse(Collapse(s)) == Collapse(s)
  {
    WordsFromAreWords(s, 0);
    WordsOfJoin(Words(s));
  }

  /** `s[:n]` */
  function Take(s: string, n: nat): (r: string)
    ensures |r| == if |s| <= n then |s| else n
    ensures r <= s
  {
    if |s| <= n then s else s[..n]
  }

  /** `s.split(None, 1)`: at most two fields, the first word and the rest of the
      string after the whitespace run that follows it. */
  function SplitFirst(s: string): (r: seq<string>)
    ensures |r| <= 2
  {
    var a := SkipSpace(s, 0);
    if a == |s| then []
    else
      var b := SkipWord(s, a);
      var c := SkipSpace(s, b);
      if c == |s| then [s[a..b]] else [s[a..b], s[c..]]
  }

  /** `s.split(c)`: always one more field than there are occurrences of `c`. */
  function SplitOn(s: string, c: char): (parts: seq<string>)
    ensures |parts| >= 1
  {
    if s == [] then [""]
    else
      var r := SplitOn(s[1..], c);
      if s[0] == c then [""] + r else [[s[0]] + r[0]] + r[1..]
  }

  /** `c.join(parts)` */
  function JoinOn(parts: seq<string>, c: char): string
  {
    if parts == [] then ""
    else if |parts| == 1 then parts[0]
    else parts[0] + [c] + JoinOn(parts[1..], c)
  }

  /** Joining the fields of a split with the separator restores the string. */
  lemma {:induction false} SplitOnJoin(s: string, c: char)
    ensures JoinOn(SplitOn(s, c), c) == s
  {
    if s != [] {
      SplitOnJoin(s[1..], c);
      var r := SplitOn(s[1..], c);
      if s[0] != c {
        if |r| == 1 {
          assert s == [s[0]] + r[0];
        } else {
          assert ([[s[0]] + r[0]] + r[1..])[1..] == r[1..];
          assert s == [s[0]] + (r[0] + [c] + JoinOn(r[1..], c));
        }
      } else {
        assert ([""] + r)[1..] == r;
      }
    }
  }

  /** No field of a split contains the separator. */
  lemma {:induction false} SplitOnParts(s: string, c: char)
    ensures forall k :: 0 <= k < |SplitOn(s, c)| ==> c !in SplitOn(s, c)[k]
  {
    if s != [] {
      SplitOnParts(s[1..], c);
      var r := SplitOn(s[1..], c);
      if s[0] != c {
        assert c !in [s[0]] + r[0];
      }
    }
  }

  /** A string without the separator is a single field. */
  lemma {:induction false} SplitOnNone(s: string, c: char)
    requires c !in s
    ensures SplitOn(s, c) == [s]
  {
    if s != [] {
      SplitOnNone(s[1..], c);
      assert [s[0]] + s[1..] == s;
    }
  }

  /** Splitting `a + c + b`, where `a` has no `c`, starts with the field `a`. */
  lemma {:induction false} SplitOnFirst(a: string, b: string, c: char)
    requires c !in a
    ensures SplitOn(a + [c] + b, c) == [a] + SplitOn(b, c)
  {
    if a == [] {
      assert ([c] + b)[1..] == b;
    } else {
      assert (a + [c] + b)[1..] == a[1..] + [c] + b;
      SplitOnFirst(a[1..], b, c);
      assert [a[0]] + a[1..] == a;
    }
  }
}
