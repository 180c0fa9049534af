/** The tuner's `key=value` parameter files (gui.py): `parse_param_file` reads one into a dict of
 *  integers and `write_param_file` writes one with a comment header and the keys in sorted order. */
module ParamFile {
  import opened Wrappers
  import opened Text
  import opened Decimal

  // ---------------------------------------------------------------- string order

  /** Python's `<=` on strings: lexicographic on code points. */
  predicate StrLe(a: string, b: string)
    decreases |a|
  {
    |a| == 0 || (|b| > 0 && (a[0] < b[0] || (a[0] == b[0] && StrLe(a[1..], b[1..]))))
  }

  lemma {:induction false} StrLeTotal(a: string, b: string)
    ensures StrLe(a, b) || StrLe(b, a)
    decreases |a|
  {
    if |a| > 0 && |b| > 0 && a[0] == b[0] {
      StrLeTotal(a[1..], b[1..]);
    }
  }

  lemma {:induction false} StrLeReflexive(a: string)
    ensures StrLe(a, a)
    decreases |a|
  {
    if |a| > 0 {
      StrLeReflexive(a[1..]);
    }
  }

  lemma {:induction false} StrLeAntisymmetric(a: string, b: string)
    requires StrLe(a, b) && StrLe(b, a)
    ensures a == b
    decreases |a|
  {
    if |a| > 0 {
      StrLeAntisymmetric(a[1..], b[1..]);
      assert a == [a[0]] + a[1..];
      assert b == [b[0]] + b[1..];
    }
  }

  lemma {:induction false} StrLeTransitive(a: string, b: string, c: string)
    requires StrLe(a, b) && StrLe(b, c)
    ensures StrLe(a, c)
    decreases |a|
  {
    if |a| > 0 && a[0] == b[0] && b[0] == c[0] {
      StrLeTransitive(a[1..], b[1..], c[1..]);
    }
  }

  predicate IsLeast(k: string, s: set<string>)
  {
    k in s && forall j :: j in s ==> StrLe(k, j)
  }

  lemma {:induction false} LeastExists(s: set<string>)
    requires s != {}
    ensures exists k :: IsLeast(k, s)
    decreases |s|
  {
    var x :| x in s;
    StrLeReflexive(x);
    if s == {x} {
      assert IsLeast(x, s);
    } else {
      LeastExists(s - {x});
      var m :| IsLeast(m, s - {x});
      StrLeTotal(x, m);
      if StrLe(x, m) {
        forall j | j in s ensures StrLe(x, j) {
          if j != x {
            StrLeTransitive(x, m, j);
          }
        }
        assert IsLeast(x, s);
      } else {
        assert IsLeast(m, s);
      }
    }
  }

  lemma LeastUnique(s: set<string>)
    ensures forall k1, k2 :: IsLeast(k1, s) && IsLeast(k2, s) ==> k1 == k2
  {
    forall k1, k2 | IsLeast(k1, s) && IsLeast(k2, s) ensures k1 == k2 {
      StrLeAntisymmetric(k1, k2);
    }
  }

  /** `sorted(keys)`: every key once, in increasing order. */
  function SortedKeys(s: set<string>): (r: seq<string>)
    ensures |r| == |s|
    ensures forall i :: 0 <= i < |r| ==> r[i] in s
    ensures forall k :: k in s ==> k in r
    decreases |s|
  {
    if s == {} then []
    else
      LeastExists(s);
      LeastUnique(s);
      var k :| IsLeast(k, s);
      [k] + SortedKeys(s - {k})
  }

  /** The keys come out in strictly increasing order. */
  lemma {:induction false} SortedKeysAscending(s: set<string>)
    ensures forall i, j :: 0 <= i < j < |SortedKeys(s)| ==> StrLe(SortedKeys(s)[i], SortedKeys(s)[j]) && SortedKeys(s)[i] != SortedKeys(s)[j]
    decreases |s|
  {
    if s != {} {
      var r := SortedKeys(s);
      var k := r[0];
      assert IsLeast(k, s);
      SortedKeysAscending(s - {k});
      assert r[1..] == SortedKeys(s - {k});
      forall i, j | 0 <= i < j < |r| ensures StrLe(r[i], r[j]) && r[i] != r[j] {
        if i > 0 {
          assert r[i] == r[1..][i - 1] && r[j] == r[1..][j - 1];
        } else {
          assert r[j] == r[1..][j - 1];
          assert r[j] in s - {k};
        }
      }
    }
  }

  // ---------------------------------------------------------------- reading

  /** What one line of a parameter file asks for: the stripped key and the integer value, or
   *  `None` for a blank line, a `#` comment, a line without `=` and a value `int()` rejects. */
  function ParseLine(line: string): (r: Option<(string, int)>)
  {
    var s := Trim(line, PY_SPACE);
    if |s| == 0 || s[0] == '#' then None
    else
      var eq := Find(s, '=');
      if eq == -1 then None
      else
        var k := Trim(s[..eq], PY_SPACE);
        match PyInt(s[eq + 1..])
        case None => None
        case Some(v) => Some((k, v))
  }

  /** A parsed line: `Some((key, value))` for an entry, `None` for a skipped line. */
  type Entry = Option<(string, int)>

  /** The lines, each parsed on its own. */
  function Parsed(lines: seq<string>): (r: seq<Entry>)
    ensures |r| == |lines|
    ensures forall i :: 0 <= i < |lines| ==> r[i] == ParseLine(lines[i])
  {
    seq(|lines|, i requires 0 <= i < |lines| => ParseLine(lines[i]))
  }

  /** The dict after the entries are stored in order into `params`. */
  function Store(params: map<string, int>, entries: seq<Entry>): map<string, int>
  {
    if |entries| == 0 then params
    else
      var before := Store(params, entries[..|entries| - 1]);
      match entries[|entries| - 1]
      case None => before
      case Some((k, v)) => before[k := v]
  }

  /** The dict after the lines are read in order from `params`. */
  function ReadLines(params: map<string, int>, lines: seq<string>): map<string, int>
  {
    Store(params, Parsed(lines))
  }

  lemma ReadLinesStep(params: map<string, int>, lines: seq<string>, i: nat)
    requires i < |lines|
    ensures ReadLines(params, lines[..i + 1]) ==
      match ParseLine(lines[i])
      case None => ReadLines(params, lines[..i])
      case Some((k, v)) => ReadLines(params, lines[..i])[k := v]
  {
    assert Parsed(lines[..i + 1])[..i] == Parsed(lines[..i]);
  }

  /** `parse_param_file`: `None` is a missing file, which reads as the empty dict. */
  method ParseParamFile(file: Option<string>) returns (params: map<string, int>)
    ensures params == if file.None? then map[] else ReadLines(map[], SplitOn(file.value, '\n'))
  {
    params := map[];
    if file.None? {
      return;
    }
    var lines := SplitOn(file.value, '\n');
    for i := 0 to |lines|
      invariant params == ReadLines(map[], lines[..i])
    {
      ReadLinesStep(map[], lines, i);
      // strip, skip blank, comment and `=`-less lines, split at the first `=`, strip the key and
      // keep the entry only when the value is an integer
      var entry := ParseLine(lines[i]);
      if entry.Some? {
        params := params[entry.value.0 := entry.value.1];
      }
    }
    assert lines[..|lines|] == lines;
  }

  /** The value the last entry for `k` gives it, if any entry is for `k`. */
  function LastValue(entries: seq<Entry>, k: string): Option<int>
  {
    if |entries| == 0 then None
    else
      var e := entries[|entries| - 1];
      if e.Some? && e.value.0 == k then Some(e.value.1) else LastValue(entries[..|entries| - 1], k)
  }

  /** A later entry for a key overrides an earlier one; keys no entry names keep their value. */
  lemma {:induction false} LastEntryWins(params: map<string, int>, entries: seq<Entry>, k: string)
    ensures k in Store(params, entries) <==> k in params || LastValue(entries, k).Some?
    ensures LastValue(entries, k).Some? ==> Store(params, entries)[k] == LastValue(entries, k).value
    ensures LastValue(entries, k).None? && k in params ==> Store(params, entries)[k] == params[k]
  {
    if |entries| > 0 {
      LastEntryWins(params, entries[..|entries| - 1], k);
    }
  }

  /** Skipped lines store nothing. */
  lemma {:induction false} StoreNothing(params: map<string, int>, entries: seq<Entry>)
    requires forall i :: 0 <= i < |entries| ==> entries[i] == None
    ensures Store(params, entries) == params
  {
    if |entries| > 0 {
      StoreNothing(params, entries[..|entries| - 1]);
    }
  }

  lemma {:induction false} StoreAppend(params: map<string, int>, a: seq<Entry>, b: seq<Entry>)
    ensures Store(params, a + b) == Store(Store(params, a), b)
    decreases |b|
  {
    if |b| == 0 {
      assert a + b == a;
    } else {
      assert (a + b)[..|a + b| - 1] == a + b[..|b| - 1];
      StoreAppend(params, a, b[..|b| - 1]);
    }
  }

  /** One entry per key, in order, stores exactly those keys with their values. */
  lemma {:induction false} StoreSettings(params: map<string, int>, keys: seq<string>, entries: seq<Entry>)
    requires |entries| == |keys|
    requires forall i :: 0 <= i < |keys| ==> keys[i] in params && entries[i] == Some((keys[i], params[keys[i]]))
    ensures forall k :: k in Store(map[], entries) <==> k in keys
    ensures forall k :: k in Store(map[], entries) ==> Store(map[], entries)[k] == params[k]
  {
    if |keys| > 0 {
      var n := |keys| - 1;
      StoreSettings(params, keys[..n], entries[..n]);
      forall k ensures k in keys <==> k in keys[..n] || k == keys[n] {
        if k in keys && k != keys[n] {
          var i :| 0 <= i < |keys| && keys[i] == k;
          assert keys[..n][i] == k;
        }
        if k in keys[..n] {
          var i :| 0 <= i < n && keys[..n][i] == k;
          assert keys[i] == k;
        }
      }
    }
  }

  // ---------------------------------------------------------------- writing

  /** `str.rstrip()`. */
  function RStrip(s: string): (r: string)
    ensures |r| <= |s| && r == s[..|r|]
    ensures |r| > 0 ==> r[|r| - 1] !in PY_SPACE
    ensures |s| > 0 && s[0] !in PY_SPACE ==> |r| > 0
  {
    s[..SkipTrail(s, PY_SPACE, 0, |s|)]
  }

  /** `str.splitlines()` on a text whose line breaks are `\n`: a final break ends the last line
   *  rather than starting an empty one. */
  function SplitLines(text: string): (r: seq<string>)
    ensures forall i :: 0 <= i < |r| ==> '\n' !in r[i]
  {
    if |text| == 0 then []
    else
      var pieces := SplitOn(text, '\n');
      if text[|text| - 1] == '\n' then pieces[..|pieces| - 1] else pieces
  }

  /** A comment line, `# line` without trailing whitespace. */
  function CommentLine(hl: string): (r: string)
    ensures |r| > 0 && r[0] == '#'
    ensures '\n' !in hl ==> '\n' !in r
  {
    var s := "# " + hl;
    var r := RStrip(s);
    assert r[0] == s[0];
    assert forall i :: 0 <= i < |r| ==> r[i] == s[i];
    r
  }

  function CommentLines(hl: seq<string>): (r: seq<string>)
    ensures |r| == |hl|
    ensures forall i :: 0 <= i < |r| ==> r[i] == CommentLine(hl[i])
  {
    seq(|hl|, i requires 0 <= i < |hl| => CommentLine(hl[i]))
  }

  /** The header comment: each header line as a comment line, then a lone `#`; nothing at all
   *  for an empty header. */
  function HeaderLines(header: string): (r: seq<string>)
    ensures forall i :: 0 <= i < |r| ==> |r[i]| > 0 && r[i][0] == '#' && '\n' !in r[i]
  {
    if |header| == 0 then [] else CommentLines(SplitLines(header)) + ["#"]
  }

  function SettingLine(k: string, v: int): string
  {
    k + "=" + IntToString(v)
  }

  /** One `key=value` line per key, in the order given. */
  function SettingLines(params: map<string, int>, keys: seq<string>): (r: seq<string>)
    requires forall i :: 0 <= i < |keys| ==> keys[i] in params
    ensures |r| == |keys|
    ensures forall i :: 0 <= i < |keys| ==> r[i] == SettingLine(keys[i], params[keys[i]])
  {
    seq(|keys|, i requires 0 <= i < |keys| => SettingLine(keys[i], params[keys[i]]))
  }

  /** The text `write_param_file` writes: the lines joined by `\n`, plus a final `\n`. */
  function FileText(params: map<string, int>, header: string): string
  {
    Join(HeaderLines(header) + SettingLines(params, SortedKeys(params.Keys)), "\n") + "\n"
  }

  lemma CommentLinesSnoc(hl: seq<string>, i: nat)
    requires i < |hl|
    ensures CommentLines(hl[..i + 1]) == CommentLines(hl[..i]) + [CommentLine(hl[i])]
  {
  }

  lemma CommentLinesAll(hl: seq<string>)
    ensures CommentLines(hl[..|hl|]) == CommentLines(hl)
  {
    assert hl[..|hl|] == hl;
  }

  lemma SettingLinesSnoc(params: map<string, int>, keys: seq<string>, i: nat)
    requires forall i :: 0 <= i < |keys| ==> keys[i] in params
    requires i < |keys|
    ensures SettingLines(params, keys[..i + 1]) == SettingLines(params, keys[..i]) + [SettingLine(keys[i], params[keys[i]])]
  {
  }

  lemma SettingLinesAll(params: map<string, int>, keys: seq<string>)
    requires forall i :: 0 <= i < |keys| ==> keys[i] in params
    ensures SettingLines(params, keys[..|keys|]) == SettingLines(params, keys)
  {
    assert keys[..|keys|] == keys;
  }

  /** `write_param_file`, returning the text it writes. */
  method WriteParamFile(params: map<string, int>, header: string) returns (text: string)
    ensures text == FileText(params, header)
  {
    var lines := HeaderPart(header);
    var keys := SortedKeys(params.Keys);
    lines := SettingsPart(lines, params, keys);
    text := Join(lines, "\n") + "\n";
  }

  /** The header comment lines, appended one by one. */
  method HeaderPart(header: string) returns (lines: seq<string>)
    ensures lines == HeaderLines(header)
  {
    lines := [];
    if |header| > 0 {
      var hl := SplitLines(header);
      for i := 0 to |hl|
        invariant lines == CommentLines(hl[..i])
      {
        CommentLinesSnoc(hl, i);
        lines := lines + [CommentLine(hl[i])];
      }
      CommentLinesAll(hl);
      lines := lines + ["#"];
    }
  }

  /** One `key=value` line per key appended, in the order of `keys`. */
  method SettingsPart(head: seq<string>, params: map<string, int>, keys: seq<string>) returns (lines: seq<string>)
    requires forall i :: 0 <= i < |keys| ==> keys[i] in params
    ensures lines == head + SettingLines(params, keys)
  {
    lines := head;
    for i := 0 to |keys|
      invariant lines == head + SettingLines(params, keys[..i])
    {
      SettingLinesSnoc(params, keys, i);
      lines := lines + [SettingLine(keys[i], params[keys[i]])];
    }
    SettingLinesAll(params, keys);
  }

  // ---------------------------------------------------------------- round trip

  /** A key the file format can carry: no surrounding whitespace, no `=`, no line break, and not
   *  starting with `#`. */
  predicate PlainKey(k: string)
  {
    Trim(k, PY_SPACE) == k && '=' !in k && '\n' !in k && (|k| > 0 ==> k[0] != '#')
  }

  lemma IntTextPlain(v: int)
    ensures '\n' !in IntToString(v) && '=' !in IntToString(v)
  {
    var d := IntToString(v);
    if v < 0 {
      assert d[1..] == NatToString(-v);
      assert forall i :: 1 <= i < |d| ==> IsDigit(d[i]) by {
        forall i | 1 <= i < |d| ensures IsDigit(d[i]) {
          assert d[i] == d[1..][i - 1];
        }
      }
    }
  }

  lemma SettingLineStripped(k: string, v: int)
    requires PlainKey(k)
    ensures Trim(SettingLine(k, v), PY_SPACE) == SettingLine(k, v)
  {
    var d := IntToString(v);
    var line := SettingLine(k, v);
    if |k| > 0 {
      assert line[0] == k[0];
      assert k[0] !in PY_SPACE;
    } else {
      assert line[0] == '=';
    }
    assert line[|line| - 1] == d[|d| - 1];
    TrimUnique([], line, [], PY_SPACE);
    assert [] + line + [] == line;
  }

  lemma SettingLineSplits(k: string, v: int)
    requires PlainKey(k)
    ensures Find(SettingLine(k, v), '=') == |k|
    ensures SettingLine(k, v)[..|k|] == k && SettingLine(k, v)[|k| + 1..] == IntToString(v)
  {
    var line := SettingLine(k, v);
    assert line[|k|] == '=';
    assert line[..|k|] == k;
    assert line[|k| + 1..] == IntToString(v);
  }

  lemma SettingLineReads(k: string, v: int)
    requires PlainKey(k)
    ensures ParseLine(SettingLine(k, v)) == Some((k, v))
    ensures '\n' !in SettingLine(k, v)
  {
    var line := SettingLine(k, v);
    SettingLineStripped(k, v);
    SettingLineSplits(k, v);
    PyIntOfString(v);
    IntTextPlain(v);
    assert line[0] != '#' by {
      if |k| == 0 { assert line[0] == '='; } else { assert line[0] == k[0]; }
    }
    assert '\n' !in line by {
      assert line == k + "=" + IntToString(v);
    }
  }

  lemma CommentLineSkipped(line: string)
    requires |line| > 0 && line[0] == '#'
    ensures ParseLine(line) == None
  {
    assert TrimStart(line, PY_SPACE) == 0;
    assert Trim(line, PY_SPACE)[0] == '#';
  }

  /** The lines of the written text, as a reader splitting at `\n` sees them. */
  function TextLines(lines: seq<string>): seq<string>
  {
    if |lines| == 0 then ["", ""] else lines + [""]
  }

  lemma {:induction false} JoinNewline(lines: seq<string>)
    ensures Join(lines, "\n") + "\n" == Join(TextLines(lines), "\n")
    decreases |lines|
  {
    if |lines| == 0 {
      assert Join(["", ""], "\n") == "" + "\n" + Join([""], "\n");
    } else if |lines| == 1 {
      assert Join(lines + [""], "\n") == lines[0] + "\n" + Join([""], "\n");
    } else {
      assert (lines + [""])[1..] == lines[1..] + [""];
      JoinNewline(lines[1..]);
    }
  }

  /** The written text splits back into its lines, plus the empty piece after the final `\n`. */
  lemma WrittenLines(lines: seq<string>)
    requires forall i :: 0 <= i < |lines| ==> '\n' !in lines[i]
    ensures SplitOn(Join(lines, "\n") + "\n", '\n') == TextLines(lines)
  {
    JoinNewline(lines);
    TextLinesPlain(lines);
    SplitJoin(TextLines(lines), '\n');
  }

  lemma TextLinesPlain(lines: seq<string>)
    requires forall i :: 0 <= i < |lines| ==> '\n' !in lines[i]
    ensures |TextLines(lines)| >= 1
    ensures forall i :: 0 <= i < |TextLines(lines)| ==> '\n' !in TextLines(lines)[i]
  {
    var all := TextLines(lines);
    forall i | 0 <= i < |all| ensures '\n' !in all[i] {
      if i < |lines| {
        assert all[i] == lines[i];
      } else {
        assert all[i] == "";
      }
    }
  }

  lemma SettingLinesPlain(params: map<string, int>, keys: seq<string>)
    requires forall i :: 0 <= i < |keys| ==> keys[i] in params && PlainKey(keys[i])
    ensures forall i :: 0 <= i < |keys| ==> '\n' !in SettingLines(params, keys)[i]
  {
    forall i | 0 <= i < |keys| ensures '\n' !in SettingLines(params, keys)[i] {
      SettingLineReads(keys[i], params[keys[i]]);
    }
  }

  lemma ParsedAppend(a: seq<string>, b: seq<string>)
    ensures Parsed(a + b) == Parsed(a) + Parsed(b)
  {
  }

  lemma ParsedComments(heads: seq<string>)
    requires forall i :: 0 <= i < |heads| ==> |heads[i]| > 0 && heads[i][0] == '#'
    ensures forall i :: 0 <= i < |heads| ==> Parsed(heads)[i] == None
  {
    forall i | 0 <= i < |heads| ensures Parsed(heads)[i] == None {
      CommentLineSkipped(heads[i]);
    }
  }

  lemma ParsedSettings(params: map<string, int>, keys: seq<string>)
    requires forall i :: 0 <= i < |keys| ==> keys[i] in params && PlainKey(keys[i])
    ensures forall i :: 0 <= i < |keys| ==> Parsed(SettingLines(params, keys))[i] == Some((keys[i], params[keys[i]]))
  {
    forall i | 0 <= i < |keys| ensures Parsed(SettingLines(params, keys))[i] == Some((keys[i], params[keys[i]])) {
      SettingLineReads(keys[i], params[keys[i]]);
    }
  }

  /** Comment lines followed by one setting line per key read as those keys' values. */
  lemma ReadWritten(heads: seq<string>, params: map<string, int>, keys: seq<string>)
    requires forall i :: 0 <= i < |heads| ==> |heads[i]| > 0 && heads[i][0] == '#'
    requires forall i :: 0 <= i < |keys| ==> keys[i] in params && PlainKey(keys[i])
    ensures forall k :: k in ReadLines(map[], TextLines(heads + SettingLines(params, keys))) <==> k in keys
    ensures forall k :: k in ReadLines(map[], TextLines(heads + SettingLines(params, keys))) ==>
      ReadLines(map[], TextLines(heads + SettingLines(params, keys)))[k] == params[k]
  {
    var settings := SettingLines(params, keys);
    var e1 := Parsed(heads);
    var e2 := Parsed(settings);
    var e3 := Parsed([""]);
    assert ParseLine("") == None;
    assert forall i :: 0 <= i < |e3| ==> e3[i] == None;
    ParsedComments(heads);
    ParsedSettings(params, keys);
    StoreNothing(map[], e1);
    StoreAppend(map[], e1, e2);
    StoreSettings(params, keys, e2);
    if |heads + settings| == 0 {
      assert |keys| == 0;
      StoreNothing(map[], Parsed(["", ""]));
    } else {
      ParsedAppend(heads, settings);
      ParsedAppend(heads + settings, [""]);
      StoreAppend(map[], e1 + e2, e3);
      StoreNothing(Store(map[], e2), e3);
    }
  }

  lemma WrittenLinesPlain(params: map<string, int>, header: string)
    requires forall k :: k in params ==> PlainKey(k)
    ensures forall i :: 0 <= i < |HeaderLines(header) + SettingLines(params, SortedKeys(params.Keys))| ==>
      '\n' !in (HeaderLines(header) + SettingLines(params, SortedKeys(params.Keys)))[i]
  {
    var keys := SortedKeys(params.Keys);
    SettingLinesPlain(params, keys);
    NoNewlineConcat(HeaderLines(header), SettingLines(params, keys));
  }

  lemma NoNewlineConcat(xs: seq<string>, ys: seq<string>)
    requires forall i :: 0 <= i < |xs| ==> '\n' !in xs[i]
    requires forall i :: 0 <= i < |ys| ==> '\n' !in ys[i]
    ensures forall i :: 0 <= i < |xs + ys| ==> '\n' !in (xs + ys)[i]
  {
    forall i | 0 <= i < |xs + ys| ensures '\n' !in (xs + ys)[i] {
      if i >= |xs| {
        assert (xs + ys)[i] == ys[i - |xs|];
      }
    }
  }

  /** A map holding exactly the keys of `params`, with their values, is `params`. */
  lemma SameMap(r: map<string, int>, params: map<string, int>, keys: seq<string>)
    requires forall k :: k in keys <==> k in params
    requires forall k :: k in r <==> k in keys
    requires forall k :: k in r ==> r[k] == params[k]
    ensures r == params
  {
  }

  /** Reading back what `write_param_file` wrote gives the same dict, for plain keys. */
  lemma WriteThenParse(params: map<string, int>, header: string)
    requires forall k :: k in params ==> PlainKey(k)
    ensures ReadLines(map[], SplitOn(FileText(params, header), '\n')) == params
  {
    var heads := HeaderLines(header);
    var keys := SortedKeys(params.Keys);
    WrittenLinesPlain(params, header);
    WrittenLines(heads + SettingLines(params, keys));
    ReadWritten(heads, params, keys);
    SameMap(ReadLines(map[], TextLines(heads + SettingLines(params, keys))), params, keys);
  }
}
