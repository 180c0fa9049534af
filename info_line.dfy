/** The tuner's decoder of a UCI `info` line (`UCIEngine._parse_info` in gui.py), and the line the
 *  engine prints for each completed iteration (search.cpp), which it reads back. */
module InfoLine {
  import opened Wrappers
  import opened Text
  import opened Decimal

  /** The dictionary `_parse_info` returns: one optional entry per key it may set. */
  datatype Info = Info(
    depth: Option<int>, nodes: Option<int>, timeMs: Option<int>,
    scoreType: Option<string>, scoreValue: Option<int>, pv: Option<string>)

  const NO_INFO: Info := Info(None, None, None, None, None, None)

  /** `try: d[key] = int(text) except: pass`. */
  function Keep(prev: Option<int>, text: string): (r: Option<int>)
    ensures PyInt(text).Some? ==> r == PyInt(text)
    ensures PyInt(text).None? ==> r == prev
  {
    match PyInt(text)
    case Some(v) => Some(v)
    case None => prev
  }

  /** The dictionary after scanning `parts` from index `i` with `d` filled so far. */
  function Scan(parts: seq<string>, i: nat, d: Info): Info
    decreases |parts| - i
  {
    if i >= |parts| then d
    else if parts[i] == "depth" && i + 1 < |parts| then Scan(parts, i + 2, d.(depth := Keep(d.depth, parts[i + 1])))
    else if parts[i] == "nodes" && i + 1 < |parts| then Scan(parts, i + 2, d.(nodes := Keep(d.nodes, parts[i + 1])))
    else if parts[i] == "time" && i + 1 < |parts| then Scan(parts, i + 2, d.(timeMs := Keep(d.timeMs, parts[i + 1])))
    else if parts[i] == "score" && i + 2 < |parts| then
      Scan(parts, i + 3, d.(scoreType := Some(parts[i + 1]), scoreValue := Keep(d.scoreValue, parts[i + 2])))
    else if parts[i] == "pv" then d.(pv := Some(Join(parts[i + 1..], " ")))
    else Scan(parts, i + 1, d)
  }

  /** `_parse_info`: the while loop over the whitespace-separated tokens. */
  method ParseInfo(line: string) returns (d: Info)
    ensures d == Scan(Words(line, PY_SPACE), 0, NO_INFO)
  {
    var parts := Words(line, PY_SPACE);
    d := NO_INFO;
    var i := 0;
    while i < |parts|
      invariant 0 <= i <= |parts|
      invariant Scan(parts, 0, NO_INFO) == Scan(parts, i, d)
      decreases |parts| - i
    {
      var tok := parts[i];
      if tok == "depth" && i + 1 < |parts| {
        d := d.(depth := Keep(d.depth, parts[i + 1]));
        i := i + 2;
      } else if tok == "nodes" && i + 1 < |parts| {
        d := d.(nodes := Keep(d.nodes, parts[i + 1]));
        i := i + 2;
      } else if tok == "time" && i + 1 < |parts| {
        d := d.(timeMs := Keep(d.timeMs, parts[i + 1]));
        i := i + 2;
      } else if tok == "score" && i + 2 < |parts| {
        d := d.(scoreType := Some(parts[i + 1]));
        d := d.(scoreValue := Keep(d.scoreValue, parts[i + 2]));
        i := i + 3;
      } else if tok == "pv" {
        d := d.(pv := Some(Join(parts[i + 1..], " ")));
        break;
      } else {
        i := i + 1;
      }
    }
  }

  /** The tokens the scanner acts on. */
  predicate Keyword(w: string)
  {
    w == "depth" || w == "nodes" || w == "time" || w == "score" || w == "pv"
  }

  /** Tokens that are no keyword advance the scan by one and leave the dictionary alone. */
  lemma {:induction false} UnknownTokensSkipped(parts: seq<string>, i: nat, d: Info)
    requires forall k :: i <= k < |parts| ==> !Keyword(parts[k])
    ensures Scan(parts, i, d) == d
    decreases |parts| - i
  {
    if i < |parts| {
      UnknownTokensSkipped(parts, i + 1, d);
    }
  }

  /** `pv` ends the scan: the rest of the line, single-spaced, is the principal variation. */
  lemma PvEndsScan(parts: seq<string>, i: nat, d: Info)
    requires i < |parts| && parts[i] == "pv"
    ensures Scan(parts, i, d) == d.(pv := Some(Join(parts[i + 1..], " ")))
  {
  }

  /** A value that is not an integer drops only its own key: the rest of the line is scanned as
   *  if the pair were absent. */
  lemma BadValueDropsField(parts: seq<string>, i: nat, d: Info)
    requires i + 1 < |parts| && parts[i] == "depth" && PyInt(parts[i + 1]).None?
    ensures Scan(parts, i, d) == Scan(parts, i + 2, d)
  {
  }

  // ---------------------------------------------------------------- the engine's info line

  /** A token: non-empty, without whitespace. */
  predicate Word(w: string)
  {
    |w| > 0 && forall k :: 0 <= k < |w| ==> w[k] !in PY_SPACE
  }

  lemma IntWord(n: int)
    ensures Word(IntToString(n)) && !Keyword(IntToString(n))
  {
    var s := IntToString(n);
    if n < 0 {
      assert forall k :: 1 <= k < |s| ==> s[k] == NatToString(-n)[k - 1];
    }
    assert forall k :: 0 <= k < |s| ==> s[k] == '-' || IsDigit(s[k]);
    assert IsDigit(s[|s| - 1]);
  }

  /** The tokens of the line search.cpp prints after each iteration, up to the principal
   *  variation: depth, selective depth, MultiPV index, score (`cp` or `mate`), nodes, nodes per
   *  second, hash fill and time. */
  function EngineInfoHead(depth: int, selDepth: int, multiPv: int, kind: string, value: int,
                          nodes: int, nps: int, hashfull: int, ms: int): (h: seq<string>)
    ensures |h| == 18
  {
    HeadOf(IntToString(depth), IntToString(selDepth), IntToString(multiPv), kind, IntToString(value),
           IntToString(nodes), IntToString(nps), IntToString(hashfull), IntToString(ms))
  }

  /** The same tokens with the numbers already formatted. */
  function HeadOf(depth: string, selDepth: string, multiPv: string, kind: string, value: string,
                  nodes: string, nps: string, hashfull: string, ms: string): (h: seq<string>)
    ensures |h| == 18
  {
    ["info", "depth", depth, "seldepth", selDepth, "multipv", multiPv, "score", kind, value,
     "nodes", nodes, "nps", nps, "hashfull", hashfull, "time", ms]
  }

  /** The whole line's tokens: the principal variation follows `pv` when there is one. */
  function EngineInfoWords(head: seq<string>, pv: seq<string>): seq<string>
  {
    head + (if |pv| > 0 then ["pv"] + pv else [])
  }

  /** What the decoder makes of the engine's line. */
  function ScanEngineInfo(head: seq<string>, pv: seq<string>): Info
  {
    Scan(Words(Join(EngineInfoWords(head, pv), " "), PY_SPACE), 0, NO_INFO)
  }

  /** The decoder reads back what the engine printed: depth, nodes, time, score kind and value,
   *  and the principal variation joined by single spaces. */
  lemma EngineInfoRead(depth: int, selDepth: int, multiPv: int, kind: string, value: int,
                       nodes: int, nps: int, hashfull: int, ms: int, pv: seq<string>)
    requires kind == "cp" || kind == "mate"
    requires forall i :: 0 <= i < |pv| ==> Word(pv[i])
    ensures var d := ScanEngineInfo(EngineInfoHead(depth, selDepth, multiPv, kind, value, nodes, nps, hashfull, ms), pv);
      d.depth == Some(depth) && d.nodes == Some(nodes) && d.timeMs == Some(ms) &&
      d.scoreType == Some(kind) && d.scoreValue == Some(value) &&
      d.pv == (if |pv| > 0 then Some(Join(pv, " ")) else None)
  {
    var head := EngineInfoHead(depth, selDepth, multiPv, kind, value, nodes, nps, hashfull, ms);
    HeadWords(depth, selDepth, multiPv, kind, value, nodes, nps, hashfull, ms);
    LiteralWords();
    JoinedScan(head, pv);
    EngineScan(depth, selDepth, multiPv, kind, value, nodes, nps, hashfull, ms, pv);
  }

  /** Joining tokens with single spaces and splitting the line again gives the tokens back. */
  lemma JoinedScan(head: seq<string>, pv: seq<string>)
    requires forall i :: 0 <= i < |head| ==> Word(head[i])
    requires forall i :: 0 <= i < |pv| ==> Word(pv[i])
    requires Word("pv")
    ensures ScanEngineInfo(head, pv) == Scan(EngineInfoWords(head, pv), 0, NO_INFO)
  {
    var words := EngineInfoWords(head, pv);
    forall i | 0 <= i < |words| ensures Word(words[i]) {
      if i >= |head| {
        assert words[i] == (["pv"] + pv)[i - |head|];
        if i > |head| {
          assert words[i] == pv[i - |head| - 1];
        }
      }
    }
    WordsJoin(words, PY_SPACE);
  }

  lemma HeadWords(depth: int, selDepth: int, multiPv: int, kind: string, value: int,
                  nodes: int, nps: int, hashfull: int, ms: int)
    requires kind == "cp" || kind == "mate"
    ensures var h := EngineInfoHead(depth, selDepth, multiPv, kind, value, nodes, nps, hashfull, ms);
      forall i :: 0 <= i < |h| ==> Word(h[i])
  {
    IntWord(depth); IntWord(selDepth); IntWord(multiPv); IntWord(value);
    IntWord(nodes); IntWord(nps); IntWord(hashfull); IntWord(ms);
    LiteralWords();
    HeadOfWords(IntToString(depth), IntToString(selDepth), IntToString(multiPv), kind, IntToString(value),
                IntToString(nodes), IntToString(nps), IntToString(hashfull), IntToString(ms));
  }

  lemma HeadOfWords(depth: string, selDepth: string, multiPv: string, kind: string, value: string,
                    nodes: string, nps: string, hashfull: string, ms: string)
    requires Word(depth) && Word(selDepth) && Word(multiPv) && Word(kind) && Word(value)
    requires Word(nodes) && Word(nps) && Word(hashfull) && Word(ms)
    ensures var h := HeadOf(depth, selDepth, multiPv, kind, value, nodes, nps, hashfull, ms);
      forall i :: 0 <= i < |h| ==> Word(h[i])
  {
    LiteralWords();
  }

  /** Lower-case letters are no whitespace. */
  lemma LettersWord(w: string)
    requires |w| > 0 && forall k :: 0 <= k < |w| ==> 'a' <= w[k] <= 'z'
    ensures Word(w)
  {
    forall k | 0 <= k < |w| ensures w[k] !in PY_SPACE {
      assert 'a' <= w[k] <= 'z';
    }
  }

  lemma LiteralWords()
    ensures Word("info") && Word("depth") && Word("seldepth") && Word("multipv") && Word("score")
    ensures Word("nodes") && Word("nps") && Word("hashfull") && Word("time") && Word("pv")
    ensures Word("cp") && Word("mate")
  {
    LettersWord("info"); LettersWord("depth"); LettersWord("seldepth"); LettersWord("multipv");
    LettersWord("score"); LettersWord("nodes"); LettersWord("nps"); LettersWord("hashfull");
    LettersWord("time"); LettersWord("pv"); LettersWord("cp"); LettersWord("mate");
  }

  lemma ScanSkip(parts: seq<string>, i: nat, d: Info)
    requires i < |parts| && !Keyword(parts[i])
    ensures Scan(parts, i, d) == Scan(parts, i + 1, d)
  {
  }

  lemma ScanNumber(parts: seq<string>, i: nat, d: Info, n: int)
    requires i + 1 < |parts| && PyInt(parts[i + 1]) == Some(n)
    ensures parts[i] == "depth" ==> Scan(parts, i, d) == Scan(parts, i + 2, d.(depth := Some(n)))
    ensures parts[i] == "nodes" ==> Scan(parts, i, d) == Scan(parts, i + 2, d.(nodes := Some(n)))
    ensures parts[i] == "time" ==> Scan(parts, i, d) == Scan(parts, i + 2, d.(timeMs := Some(n)))
  {
  }

  lemma ScanScore(parts: seq<string>, i: nat, d: Info, n: int)
    requires i + 2 < |parts| && parts[i] == "score" && PyInt(parts[i + 2]) == Some(n)
    ensures Scan(parts, i, d) == Scan(parts, i + 3, d.(scoreType := Some(parts[i + 1]), scoreValue := Some(n)))
  {
  }

  /** The scan of the engine's tokens, pair by pair. */
  lemma EngineScan(depth: int, selDepth: int, multiPv: int, kind: string, value: int,
                   nodes: int, nps: int, hashfull: int, ms: int, pv: seq<string>)
    requires kind == "cp" || kind == "mate"
    ensures var p := EngineInfoWords(EngineInfoHead(depth, selDepth, multiPv, kind, value, nodes, nps, hashfull, ms), pv);
      var d := Scan(p, 0, NO_INFO);
      d.depth == Some(depth) && d.nodes == Some(nodes) && d.timeMs == Some(ms) &&
      d.scoreType == Some(kind) && d.scoreValue == Some(value) &&
      d.pv == (if |pv| > 0 then Some(Join(pv, " ")) else None)
  {
    IntWord(selDepth); IntWord(multiPv); IntWord(nps); IntWord(hashfull);
    PyIntOfString(depth); PyIntOfString(value); PyIntOfString(nodes); PyIntOfString(ms);
    HeadScan(IntToString(depth), IntToString(selDepth), IntToString(multiPv), kind, IntToString(value),
             IntToString(nodes), IntToString(nps), IntToString(hashfull), IntToString(ms),
             depth, value, nodes, ms, pv);
  }

  lemma HeadScan(depth: string, selDepth: string, multiPv: string, kind: string, value: string,
                 nodes: string, nps: string, hashfull: string, ms: string,
                 depthN: int, valueN: int, nodesN: int, msN: int, pv: seq<string>)
    requires kind == "cp" || kind == "mate"
    requires !Keyword(selDepth) && !Keyword(multiPv) && !Keyword(nps) && !Keyword(hashfull)
    requires PyInt(depth) == Some(depthN) && PyInt(value) == Some(valueN)
    requires PyInt(nodes) == Some(nodesN) && PyInt(ms) == Some(msN)
    ensures var p := EngineInfoWords(HeadOf(depth, selDepth, multiPv, kind, value, nodes, nps, hashfull, ms), pv);
      var d := Scan(p, 0, NO_INFO);
      d.depth == Some(depthN) && d.nodes == Some(nodesN) && d.timeMs == Some(msN) &&
      d.scoreType == Some(kind) && d.scoreValue == Some(valueN) &&
      d.pv == (if |pv| > 0 then Some(Join(pv, " ")) else None)
  {
    var p := EngineInfoWords(HeadOf(depth, selDepth, multiPv, kind, value, nodes, nps, hashfull, ms), pv);
    var d4 := Info(Some(depthN), Some(nodesN), Some(msN), Some(kind), Some(valueN), None);
    HeadTokens(depth, selDepth, multiPv, kind, value, nodes, nps, hashfull, ms, pv);
    ScanTokens(p, depth, kind, value, nodes, ms, depthN, valueN, nodesN, msN);
    if |pv| > 0 {
      PvEndsScan(p, 18, d4);
    }
  }

  lemma HeadTokens(depth: string, selDepth: string, multiPv: string, kind: string, value: string,
                   nodes: string, nps: string, hashfull: string, ms: string, pv: seq<string>)
    requires !Keyword(selDepth) && !Keyword(multiPv) && !Keyword(nps) && !Keyword(hashfull)
    ensures var p := EngineInfoWords(HeadOf(depth, selDepth, multiPv, kind, value, nodes, nps, hashfull, ms), pv);
      EngineTokens(p, depth, kind, value, nodes, ms) &&
      (if |pv| > 0 then p[18] == "pv" && p[19..] == pv else |p| == 18)
  {
    var h := HeadOf(depth, selDepth, multiPv, kind, value, nodes, nps, hashfull, ms);
    var tail := if |pv| > 0 then ["pv"] + pv else [];
    HeadShape(depth, selDepth, multiPv, kind, value, nodes, nps, hashfull, ms);
    TokensExtend(h, tail, depth, kind, value, nodes, ms);
    var p := h + tail;
    if |pv| > 0 {
      assert p[18] == tail[0];
      assert p[19..] == tail[1..];
    }
  }

  lemma HeadShape(depth: string, selDepth: string, multiPv: string, kind: string, value: string,
                  nodes: string, nps: string, hashfull: string, ms: string)
    requires !Keyword(selDepth) && !Keyword(multiPv) && !Keyword(nps) && !Keyword(hashfull)
    ensures EngineTokens(HeadOf(depth, selDepth, multiPv, kind, value, nodes, nps, hashfull, ms), depth, kind, value, nodes, ms)
  {
    LiteralsNotKeywords();
  }

  lemma TokensExtend(h: seq<string>, tail: seq<string>, depth: string, kind: string, value: string, nodes: string, ms: string)
    requires EngineTokens(h, depth, kind, value, nodes, ms)
    ensures EngineTokens(h + tail, depth, kind, value, nodes, ms)
  {
    assert forall i :: 0 <= i < |h| ==> (h + tail)[i] == h[i];
  }

  lemma LiteralsNotKeywords()
    ensures !Keyword("info") && !Keyword("seldepth") && !Keyword("multipv") && !Keyword("nps") && !Keyword("hashfull")
  {
  }

  /** The shape of the engine's tokens up to the principal variation, as the scanner sees them:
   *  the keywords it acts on with their values, and tokens it skips between them. */
  predicate EngineTokens(p: seq<string>, depth: string, kind: string, value: string, nodes: string, ms: string)
  {
    |p| >= 18 && p[0] == "info" && p[1] == "depth" && p[2] == depth &&
    !Keyword(p[3]) && !Keyword(p[4]) && !Keyword(p[5]) && !Keyword(p[6]) &&
    p[7] == "score" && p[8] == kind && p[9] == value && p[10] == "nodes" && p[11] == nodes &&
    !Keyword(p[12]) && !Keyword(p[13]) && !Keyword(p[14]) && !Keyword(p[15]) &&
    p[16] == "time" && p[17] == ms
  }

  lemma ScanTokens(p: seq<string>, depth: string, kind: string, value: string, nodes: string, ms: string,
                   depthN: int, valueN: int, nodesN: int, msN: int)
    requires EngineTokens(p, depth, kind, value, nodes, ms)
    requires PyInt(depth) == Some(depthN) && PyInt(value) == Some(valueN)
    requires PyInt(nodes) == Some(nodesN) && PyInt(ms) == Some(msN)
    ensures Scan(p, 0, NO_INFO) == Scan(p, 18, Info(Some(depthN), Some(nodesN), Some(msN), Some(kind), Some(valueN), None))
  {
    var d1 := NO_INFO.(depth := Some(depthN));
    var d2 := d1.(scoreType := Some(kind), scoreValue := Some(valueN));
    var d3 := d2.(nodes := Some(nodesN));
    ScanSkip(p, 0, NO_INFO);
    ScanNumber(p, 1, NO_INFO, depthN);
    SkipFour(p, 3, d1);
    ScanScore(p, 7, d1, valueN);
    ScanNumber(p, 10, d2, nodesN);
    SkipFour(p, 12, d3);
    ScanNumber(p, 16, d3, msN);
  }

  lemma SkipFour(p: seq<string>, i: nat, d: Info)
    requires i + 4 <= |p| && !Keyword(p[i]) && !Keyword(p[i + 1]) && !Keyword(p[i + 2]) && !Keyword(p[i + 3])
    ensures Scan(p, i, d) == Scan(p, i + 4, d)
  {
    ScanSkip(p, i, d);
    ScanSkip(p, i + 1, d);
    ScanSkip(p, i + 2, d);
    ScanSkip(p, i + 3, d);
  }
}
