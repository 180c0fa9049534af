/** Character classes and the string scanning shared by the engine's and the tuner's text readers:
 *  trimming, whitespace tokenising, splitting at a separator and joining. */
module Text {

  /** `std::isspace` in the "C" locale. */
  const C_SPACE: set<char> := {' ', '\t', '\n', '\U{0B}', '\U{0C}', '\r'}

  /** Python's `str.isspace` on the first 256 code points. */
  const PY_SPACE: set<char> := C_SPACE + {'\U{1C}', '\U{1D}', '\U{1E}', '\U{1F}', '\U{85}', '\U{A0}'}

  predicate AllIn(s: string, ws: set<char>)
  {
    forall k :: 0 <= k < |s| ==> s[k] in ws
  }

  // ---------------------------------------------------------------- trimming

  /** The first index at or after `a` that does not hold a character of `ws`. */
  function SkipLead(s: string, ws: set<char>, a: nat): (r: nat)
    requires a <= |s|
    ensures a <= r <= |s|
    ensures forall k :: a <= k < r ==> s[k] in ws
    ensures r < |s| ==> s[r] !in ws
    decreases |s| - a
  {
    if a < |s| && s[a] in ws then SkipLead(s, ws, a + 1) else a
  }

  /** The end of `s[a..b]` once trailing characters of `ws` are dropped. */
  function SkipTrail(s: string, ws: set<char>, a: nat, b: nat): (r: nat)
    requires a <= b <= |s|
    ensures a <= r <= b
    ensures forall k :: r <= k < b ==> s[k] in ws
    ensures a < r ==> s[r - 1] !in ws
    decreases b
  {
    if a < b && s[b - 1] in ws then SkipTrail(s, ws, a, b - 1) else b
  }

  function TrimStart(s: string, ws: set<char>): (a: nat)
    ensures a <= |s|
  {
    SkipLead(s, ws, 0)
  }

  function TrimEnd(s: string, ws: set<char>): (b: nat)
    ensures TrimStart(s, ws) <= b <= |s|
  {
    SkipTrail(s, ws, TrimStart(s, ws), |s|)
  }

  /** Drops the leading and the trailing characters of `ws` (`trim` in params.cpp with C_SPACE,
   *  `str.strip` with PY_SPACE). */
  function Trim(s: string, ws: set<char>): (r: string)
    ensures |r| <= |s|
    ensures |r| > 0 ==> r[0] !in ws && r[|r| - 1] !in ws
  {
    s[TrimStart(s, ws)..TrimEnd(s, ws)]
  }

  /** What was dropped is whitespace only, at both ends. */
  lemma TrimShape(s: string, ws: set<char>)
    ensures s == s[..TrimStart(s, ws)] + Trim(s, ws) + s[TrimEnd(s, ws)..]
    ensures AllIn(s[..TrimStart(s, ws)], ws) && AllIn(s[TrimEnd(s, ws)..], ws)
  {
  }

  /** Trimming is determined by the shape: padding `r` (empty, or with non-whitespace ends) with
   *  whitespace on both sides and trimming gives `r` back. */
  lemma {:induction false} TrimUnique(p: string, r: string, q: string, ws: set<char>)
    requires AllIn(p, ws) && AllIn(q, ws)
    requires |r| > 0 ==> r[0] !in ws && r[|r| - 1] !in ws
    ensures Trim(p + r + q, ws) == r
  {
    var s := p + r + q;
    var a := TrimStart(s, ws);
    var b := TrimEnd(s, ws);
    if |r| == 0 {
      assert s == p + q;
      assert AllIn(s, ws);
      assert a == |s|;
    } else {
      assert s[|p|] == r[0];
      assert a == |p|;
      assert s[|p| + |r| - 1] == r[|r| - 1];
      assert b == |p| + |r|;
      assert s[a..b] == r;
    }
  }

  /** Trimming twice changes nothing. */
  lemma TrimIdempotent(s: string, ws: set<char>)
    ensures Trim(Trim(s, ws), ws) == Trim(s, ws)
  {
    TrimUnique([], Trim(s, ws), [], ws);
    assert [] + Trim(s, ws) + [] == Trim(s, ws);
  }

  /** A string with non-whitespace ends is its own trim. */
  lemma TrimFixed(s: string, ws: set<char>)
    requires |s| > 0 ==> s[0] !in ws && s[|s| - 1] !in ws
    ensures Trim(s, ws) == s
  {
    TrimUnique([], s, [], ws);
    assert [] + s + [] == s;
  }

  /** A string that trimming removes nothing from keeps that property for fewer whitespace characters. */
  lemma TrimNarrower(s: string, ws: set<char>, fewer: set<char>)
    requires fewer <= ws && Trim(s, ws) == s
    ensures Trim(s, fewer) == s
  {
    TrimFixed(s, fewer);
  }

  /** A string made of whitespace only trims to the empty string. */
  lemma TrimBlank(s: string, ws: set<char>)
    requires AllIn(s, ws)
    ensures Trim(s, ws) == []
  {
    TrimUnique(s, [], [], ws);
    assert s + [] + [] == s;
  }

  // ---------------------------------------------------------------- searching and splitting

  /** The index of the first `c` in `s`, if any (`std::string::find`, `str.index`). */
  function Find(s: string, c: char): (r: int)
    ensures -1 <= r < |s|
    ensures r == -1 <==> c !in s
    ensures r >= 0 ==> s[r] == c && c !in s[..r]
  {
    if |s| == 0 then -1
    else if s[0] == c then 0
    else
      var k := Find(s[1..], c);
      if k == -1 then -1
      else
        assert s[..k + 1] == [s[0]] + s[1..][..k];
        k + 1
  }

  /** The first `c` is the one with none before it. */
  lemma {:induction false} FindAt(s: string, c: char, i: nat)
    requires i < |s| && s[i] == c && c !in s[..i]
    ensures Find(s, c) == i
    decreases i
  {
    if i > 0 {
      assert s[..i][0] == s[0];
      assert s[1..][..i - 1] == s[..i][1..];
      FindAt(s[1..], c, i - 1);
    }
  }

  /** Splits at every `c`, keeping empty pieces (`str.split(c)`, and the lines a text file holds). */
  function SplitOn(s: string, c: char): (r: seq<string>)
    ensures |r| >= 1
    ensures forall i :: 0 <= i < |r| ==> c !in r[i]
    decreases |s|
  {
    var i := Find(s, c);
    if i == -1 then [s] else [s[..i]] + SplitOn(s[i + 1..], c)
  }

  /** Joins `parts` with `sep` between neighbours (`sep.join(parts)`). */
  function Join(parts: seq<string>, sep: string): (r: string)
    ensures |parts| == 1 ==> r == parts[0]
  {
    if |parts| == 0 then []
    else if |parts| == 1 then parts[0]
    else parts[0] + sep + Join(parts[1..], sep)
  }

  /** Appending a part puts one separator before it. */
  lemma {:induction false} JoinSnoc(parts: seq<string>, w: string, sep: string)
    ensures Join(parts + [w], sep) == if |parts| == 0 then w else Join(parts, sep) + sep + w
    decreases |parts|
  {
    if |parts| > 1 {
      assert (parts + [w])[1..] == parts[1..] + [w];
      JoinSnoc(parts[1..], w, sep);
    } else if |parts| == 1 {
      assert (parts + [w])[1..] == [w];
    }
  }

  /** Splitting at the first `c` takes the piece before it off the front. */
  lemma SplitAtFirst(head: string, c: char, tail: string)
    requires c !in head
    ensures SplitOn(head + [c] + tail, c) == [head] + SplitOn(tail, c)
  {
    var s := head + [c] + tail;
    assert s[|head|] == c;
    assert s[..|head|] == head;
    FindAt(s, c, |head|);
    assert s[|head| + 1..] == tail;
  }

  /** Splitting undoes joining, when no part holds the separator. */
  lemma {:induction false} SplitJoin(parts: seq<string>, c: char)
    requires |parts| >= 1
    requires forall i :: 0 <= i < |parts| ==> c !in parts[i]
    ensures SplitOn(Join(parts, [c]), c) == parts
    decreases |parts|
  {
    if |parts| == 1 {
      assert Join(parts, [c]) == parts[0];
      assert Find(parts[0], c) == -1;
    } else {
      var tail := Join(parts[1..], [c]);
      assert Join(parts, [c]) == parts[0] + [c] + tail;
      SplitAtFirst(parts[0], c, tail);
      SplitJoin(parts[1..], c);
      assert parts == [parts[0]] + parts[1..];
    }
  }

  // ---------------------------------------------------------------- whitespace tokens

  /** The first index at or after `a` that holds a character of `ws`, or the end. */
  function WordEnd(s: string, ws: set<char>, a: nat): (r: nat)
    requires a <= |s|
    ensures a <= r <= |s|
    ensures forall k :: a <= k < r ==> s[k] !in ws
    ensures r < |s| ==> s[r] in ws
    decreases |s| - a
  {
    if a < |s| && s[a] !in ws then WordEnd(s, ws, a + 1) else a
  }

  /** The maximal runs of non-whitespace, in order (`str.split()` with no argument, and the
   *  successive `>>` reads of an `istringstream`). */
  function Words(s: string, ws: set<char>): (r: seq<string>)
    ensures forall i :: 0 <= i < |r| ==> |r[i]| > 0 && forall k :: 0 <= k < |r[i]| ==> r[i][k] !in ws
    decreases |s|
  {
    var a := SkipLead(s, ws, 0);
    if a == |s| then []
    else
      var e := WordEnd(s, ws, a);
      [s[a..e]] + Words(s[e..], ws)
  }

  /** Tokenising the single-space join of words gives the words back. */
  lemma {:induction false} WordsJoin(words: seq<string>, ws: set<char>)
    requires ' ' in ws
    requires forall i :: 0 <= i < |words| ==> |words[i]| > 0 && forall k :: 0 <= k < |words[i]| ==> words[i][k] !in ws
    ensures Words(Join(words, " "), ws) == words
    decreases |words|
  {
    if |words| == 0 {
      assert Words([], ws) == [];
    } else if |words| == 1 {
      var w := words[0];
      WordsFirst(w, [], ws);
      assert w + [] == w;
      assert Words([], ws) == [];
    } else {
      var w := words[0];
      var tail := Join(words[1..], " ");
      assert Join(words, " ") == w + ([' '] + tail);
      WordsFirst(w, [' '] + tail, ws);
      WordsLeadingSpace(tail, ws);
      WordsJoin(words[1..], ws);
      assert words == [w] + words[1..];
    }
  }

  /** A word followed by nothing or by whitespace is the first token. */
  lemma WordsFirst(w: string, t: string, ws: set<char>)
    requires |w| > 0 && forall k :: 0 <= k < |w| ==> w[k] !in ws
    requires |t| > 0 ==> t[0] in ws
    ensures Words(w + t, ws) == [w] + Words(t, ws)
  {
    var s := w + t;
    assert s[0] == w[0];
    assert SkipLead(s, ws, 0) == 0;
    WordEndAt(s, ws, 0, |w|);
    assert s[0..|w|] == w;
    assert s[|w|..] == t;
  }

  lemma {:induction false} WordEndAt(s: string, ws: set<char>, a: nat, e: nat)
    requires a <= e <= |s|
    requires forall k :: a <= k < e ==> s[k] !in ws
    requires e < |s| ==> s[e] in ws
    ensures WordEnd(s, ws, a) == e
    decreases e - a
  {
    if a < e {
      WordEndAt(s, ws, a + 1, e);
    }
  }

  lemma WordsLeadingSpace(t: string, ws: set<char>)
    requires ' ' in ws
    ensures Words([' '] + t, ws) == Words(t, ws)
  {
    var s := [' '] + t;
    SkipLeadShift(s, ws);
    assert s[1..] == t;
  }

  lemma SkipLeadShift(s: string, ws: set<char>)
    requires |s| > 0 && s[0] in ws
    ensures Words(s, ws) == Words(s[1..], ws)
  {
    SkipLeadFrom(s, ws, 1);
  }

  /** Skipping whitespace from index `j` of `s` lands where skipping from 0 of `s[j..]` does. */
  lemma SkipLeadFrom(s: string, ws: set<char>, j: nat)
    requires j <= |s|
    requires forall k :: 0 <= k < j ==> s[k] in ws
    ensures Words(s, ws) == Words(s[j..], ws)
  {
    var t := s[j..];
    SkipLeadSuffix(s, ws, 0, j);
    SkipLeadOffset(s, ws, j, 0);
    var a := SkipLead(s, ws, 0);
    var a' := SkipLead(t, ws, 0);
    assert a == j + a';
    if a < |s| {
      var e := WordEnd(s, ws, a);
      var e' := WordEnd(t, ws, a');
      WordEndOffset(s, ws, j, a');
      assert e == j + e';
      SliceOfSuffix(s, j, a', e', a, e);
      WordsAt(s, ws, a, e);
      WordsAt(t, ws, a', e');
    } else {
      WordsNone(s, ws);
      WordsNone(t, ws);
    }
  }

  lemma WordsNone(s: string, ws: set<char>)
    requires SkipLead(s, ws, 0) == |s|
    ensures Words(s, ws) == []
  {
  }

  /** The first token of `s` runs from `a` to `e`. */
  lemma WordsAt(s: string, ws: set<char>, a: nat, e: nat)
    requires a == SkipLead(s, ws, 0) < |s| && e == WordEnd(s, ws, a)
    ensures Words(s, ws) == [s[a..e]] + Words(s[e..], ws)
  {
  }

  lemma SliceOfSuffix(s: string, j: nat, x: nat, y: nat, a: nat, e: nat)
    requires j <= |s| && x <= y <= |s| - j && a == j + x && e == j + y
    ensures s[j..][x..y] == s[a..e] && s[j..][y..] == s[e..]
  {
  }

  lemma {:induction false} SkipLeadSuffix(s: string, ws: set<char>, a: nat, j: nat)
    requires a <= j <= |s|
    requires forall k :: a <= k < j ==> s[k] in ws
    ensures SkipLead(s, ws, a) == SkipLead(s, ws, j)
    decreases j - a
  {
    if a < j {
      SkipLeadSuffix(s, ws, a + 1, j);
    }
  }

  lemma {:induction false} SkipLeadOffset(s: string, ws: set<char>, j: nat, b: nat)
    requires j + b <= |s|
    ensures SkipLead(s, ws, j + b) == j + SkipLead(s[j..], ws, b)
    decreases |s| - j - b
  {
    if j + b < |s| && s[j + b] in ws {
      SkipLeadOffset(s, ws, j, b + 1);
    }
  }

  lemma {:induction false} WordEndOffset(s: string, ws: set<char>, j: nat, b: nat)
    requires j + b <= |s|
    ensures WordEnd(s, ws, j + b) == j + WordEnd(s[j..], ws, b)
    decreases |s| - j - b
  {
    if j + b < |s| && s[j + b] !in ws {
      WordEndOffset(s, ws, j, b + 1);
    }
  }

  // ---------------------------------------------------------------- reading a stream word by word

  /** What one `stream >> word` finds from index `a`: nothing but whitespace, or a word and the
   *  index just after it. */
  datatype Token = NoWord | Word(text: string, next: nat)

  function NextWord(s: string, ws: set<char>, a: nat): (r: Token)
    requires a <= |s|
    ensures r.Word? ==> a < r.next <= |s| && |r.text| > 0
    ensures r.Word? ==> forall k :: 0 <= k < |r.text| ==> r.text[k] !in ws
  {
    var b := SkipLead(s, ws, a);
    if b == |s| then NoWord else Word(s[b..WordEnd(s, ws, b)], WordEnd(s, ws, b))
  }

  /** Reading words one at a time from `a` gives the tokens of the rest of the stream. */
  lemma NextWordWords(s: string, ws: set<char>, a: nat)
    requires a <= |s|
    ensures NextWord(s, ws, a).NoWord? <==> Words(s[a..], ws) == []
    ensures NextWord(s, ws, a).Word? ==>
      Words(s[a..], ws) == [NextWord(s, ws, a).text] + Words(s[NextWord(s, ws, a).next..], ws)
  {
    var t := s[a..];
    SkipLeadOffset(s, ws, a, 0);
    var b := SkipLead(s, ws, a);
    var b' := SkipLead(t, ws, 0);
    assert b == a + b';
    if b < |s| {
      WordEndOffset(s, ws, a, b');
      var e := WordEnd(s, ws, b);
      var e' := WordEnd(t, ws, b');
      SliceOfSuffix(s, a, b', e', b, e);
      WordsAt(t, ws, b', e');
    } else {
      WordsNone(t, ws);
    }
  }

  /** The word read from `a` is `s[b..e]` when only whitespace precedes it and whitespace or the
   *  end follows it. */
  lemma NextWordAt(s: string, ws: set<char>, a: nat, b: nat, e: nat)
    requires a <= b < e <= |s|
    requires forall k :: a <= k < b ==> s[k] in ws
    requires forall k :: b <= k < e ==> s[k] !in ws
    requires e < |s| ==> s[e] in ws
    ensures NextWord(s, ws, a) == Word(s[b..e], e)
  {
    SkipLeadSuffix(s, ws, a, b);
    WordEndAt(s, ws, b, e);
  }

  /** Only whitespace is left from `a`. */
  lemma NoWordAt(s: string, ws: set<char>, a: nat)
    requires a <= |s|
    requires forall k :: a <= k < |s| ==> s[k] in ws
    ensures NextWord(s, ws, a) == NoWord
  {
    SkipLeadSuffix(s, ws, a, |s|);
  }
}
