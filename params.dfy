/** The engine's runtime-tunable parameters (params.h) and their `key=value` file loader
 *  (params.cpp). The `Params` struct is held as a map from its field names to their values. */
module EngineParams {
  import opened Wrappers
  import opened Text
  import opened Decimal

  /** The field names of `struct Params`, which are exactly the keys `set_kv` accepts. */
  const KEYS: set<string> := {
    "asp_base", "asp_per_depth",
    "hist_prune_min_depth", "hist_prune_late_base", "hist_prune_late_per_depth", "hist_prune_threshold",
    "lmr_check_bonus", "lmr_goodhist_bonus", "lmr_badhist_penalty",
    "ks_attacker_bonus", "ks_units_n", "ks_units_b", "ks_units_r", "ks_units_q", "ks_scale",
    "thr_hanging_minor", "thr_hanging_rook", "thr_hanging_queen", "thr_pawn_attack_bonus"
  }

  /** The member initialisers of `struct Params`. */
  const DEFAULTS: map<string, int> := map[
    "asp_base" := 18, "asp_per_depth" := 10,
    "hist_prune_min_depth" := 8, "hist_prune_late_base" := 12, "hist_prune_late_per_depth" := 2,
    "hist_prune_threshold" := -2000,
    "lmr_check_bonus" := 1, "lmr_goodhist_bonus" := 1, "lmr_badhist_penalty" := 1,
    "ks_attacker_bonus" := 6, "ks_units_n" := 6, "ks_units_b" := 6, "ks_units_r" := 4,
    "ks_units_q" := 10, "ks_scale" := 1,
    "thr_hanging_minor" := 18, "thr_hanging_rook" := 28, "thr_hanging_queen" := 40,
    "thr_pawn_attack_bonus" := 8
  ]

  lemma DefaultsCoverKeys()
    ensures DEFAULTS.Keys == KEYS
  {
  }

  /** `set_kv` on the values: the updated values for a field name, `None` (return false) for any
   *  other key. */
  function WithSetting(vals: map<string, int>, k: string, v: int): (r: Option<map<string, int>>)
    ensures r.Some? <==> k in KEYS
    ensures r.Some? ==> r.value.Keys == vals.Keys + {k} && r.value[k] == v
    ensures r.Some? ==> forall j :: j in vals && j != k ==> r.value[j] == vals[j]
  {
    if k in KEYS then Some(vals[k := v]) else None
  }

  /** What one line of a parameter file asks for: the trimmed key and the `std::stoi` value, or
   *  `None` for a blank line, a `#` comment, a line without `=`, an empty key or value, and a value
   *  `std::stoi` rejects. */
  function ParseLine(line: string): (r: Option<(string, int)>)
    ensures r.Some? ==> |r.value.0| > 0 && Trim(r.value.0, C_SPACE) == r.value.0
  {
    var t := Trim(line, C_SPACE);
    if |t| == 0 || t[0] == '#' then None
    else
      var eq := Find(t, '=');
      if eq == -1 then None
      else
        var k := Trim(t[..eq], C_SPACE);
        var vs := Trim(t[eq + 1..], C_SPACE);
        if |k| == 0 || |vs| == 0 then None
        else
          match CStoi(vs)
          case None => None
          case Some(v) =>
            TrimIdempotent(t[..eq], C_SPACE);
            Some((k, v))
  }

  /** The values after one line is read. */
  function ApplyLine(vals: map<string, int>, line: string): map<string, int>
  {
    match ParseLine(line)
    case None => vals
    case Some((k, v)) =>
      match WithSetting(vals, k, v)
      case None => vals
      case Some(n) => n
  }

  /** The values after the lines are read in file order. */
  function ApplyLines(vals: map<string, int>, lines: seq<string>): map<string, int>
  {
    if |lines| == 0 then vals else ApplyLine(ApplyLines(vals, lines[..|lines| - 1]), lines[|lines| - 1])
  }

  lemma ApplyLinesStep(vals: map<string, int>, lines: seq<string>, i: nat)
    requires i < |lines|
    ensures ApplyLines(vals, lines[..i + 1]) == ApplyLine(ApplyLines(vals, lines[..i]), lines[i])
  {
    assert lines[..i + 1][..i] == lines[..i];
  }

  /** One line either sets a known key to its parsed value or changes nothing. */
  lemma ApplyLineIs(vals: map<string, int>, line: string)
    ensures ApplyLine(vals, line) ==
      if ParseLine(line).Some? && ParseLine(line).value.0 in KEYS
      then vals[ParseLine(line).value.0 := ParseLine(line).value.1] else vals
  {
  }

  /** The value the last line setting `k` gives it, if any line does. */
  function LastSetting(lines: seq<string>, k: string): Option<int>
  {
    if |lines| == 0 then None
    else
      var p := ParseLine(lines[|lines| - 1]);
      if p.Some? && p.value.0 == k then Some(p.value.1) else LastSetting(lines[..|lines| - 1], k)
  }

  /** The lines of a text file, as `std::getline` delivers them. */
  function FileLines(text: string): seq<string>
  {
    SplitOn(text, '\n')
  }

  /** Reading a file never adds or removes a field, and each field ends with the value of the
   *  last line that sets it, or keeps its value when none does. */
  lemma {:induction false} LastLineWins(vals: map<string, int>, lines: seq<string>)
    ensures ApplyLines(vals, lines).Keys == vals.Keys + SetByLines(lines)
    ensures forall k :: k in KEYS && LastSetting(lines, k).Some? ==> ApplyLines(vals, lines)[k] == LastSetting(lines, k).value
    ensures forall k :: k in vals && (k !in KEYS || LastSetting(lines, k).None?) ==> ApplyLines(vals, lines)[k] == vals[k]
  {
    LastLineKeys(vals, lines);
    LastLineValues(vals, lines);
    LastLineKeeps(vals, lines);
  }

  lemma {:induction false} LastLineKeys(vals: map<string, int>, lines: seq<string>)
    ensures ApplyLines(vals, lines).Keys == vals.Keys + SetByLines(lines)
  {
    if |lines| > 0 {
      var init, last := lines[..|lines| - 1], lines[|lines| - 1];
      LastLineKeys(vals, init);
      ApplyLineKeys(ApplyLines(vals, init), last);
      SetByLinesStep(lines);
    }
  }

  /** The fields some line of `lines` sets. */
  ghost function SetByLines(lines: seq<string>): set<string>
  {
    set k | k in KEYS && LastSetting(lines, k).Some?
  }

  /** The field a parsed line names, when it is one. */
  function NamedField(p: Option<(string, int)>): set<string>
  {
    if p.Some? && p.value.0 in KEYS then {p.value.0} else {}
  }

  lemma ApplyLineKeys(vals: map<string, int>, line: string)
    ensures ApplyLine(vals, line).Keys == vals.Keys + NamedField(ParseLine(line))
  {
  }

  lemma SetByLinesStep(lines: seq<string>)
    requires |lines| > 0
    ensures SetByLines(lines) == SetByLines(lines[..|lines| - 1]) + NamedField(ParseLine(lines[|lines| - 1]))
  {
    var init, p := lines[..|lines| - 1], ParseLine(lines[|lines| - 1]);
    forall k ensures LastSetting(lines, k).Some? <==> LastSetting(init, k).Some? || (p.Some? && p.value.0 == k) {
    }
  }

  lemma {:induction false} LastLineValues(vals: map<string, int>, lines: seq<string>)
    ensures forall k :: k in KEYS && LastSetting(lines, k).Some? ==>
      k in ApplyLines(vals, lines) && ApplyLines(vals, lines)[k] == LastSetting(lines, k).value
  {
    LastLineKeys(vals, lines);
    if |lines| > 0 {
      LastLineKeys(vals, lines[..|lines| - 1]);
      LastLineValues(vals, lines[..|lines| - 1]);
    }
  }

  lemma {:induction false} LastLineKeeps(vals: map<string, int>, lines: seq<string>)
    ensures forall k :: k in vals && (k !in KEYS || LastSetting(lines, k).None?) ==>
      k in ApplyLines(vals, lines) && ApplyLines(vals, lines)[k] == vals[k]
  {
    LastLineKeys(vals, lines);
    if |lines| > 0 {
      LastLineKeys(vals, lines[..|lines| - 1]);
      LastLineKeeps(vals, lines[..|lines| - 1]);
    }
  }

  /** A file none of whose lines names a field changes nothing. */
  lemma {:induction false} UnknownKeysChangeNothing(vals: map<string, int>, lines: seq<string>)
    requires forall i :: 0 <= i < |lines| && ParseLine(lines[i]).Some? ==> ParseLine(lines[i]).value.0 !in KEYS
    ensures ApplyLines(vals, lines) == vals
  {
    if |lines| > 0 {
      UnknownKeysChangeNothing(vals, lines[..|lines| - 1]);
    }
  }

  /** The global `g_params`. */
  class Params {
    var values: map<string, int>

    constructor()
      ensures values == DEFAULTS
    {
      values := DEFAULTS;
    }

    /** `set_kv`: assigns the named field and returns true, or returns false for an unknown key. */
    method SetKv(k: string, v: int) returns (ok: bool)
      modifies this
      ensures ok == (k in KEYS)
      ensures values == if ok then old(values)[k := v] else old(values)
    {
      if k in KEYS {
        values := values[k := v];
        ok := true;
      } else {
        ok := false;
      }
    }

    /** `load_params_file`: `None` is a file that cannot be opened, which returns false and changes
     *  nothing; a readable file returns true after applying its lines in order. */
    method LoadParamsFile(file: Option<string>) returns (ok: bool)
      modifies this
      ensures ok == file.Some?
      ensures values == if file.Some? then ApplyLines(old(values), FileLines(file.value)) else old(values)
    {
      if file.None? {
        return false;
      }
      var lines := FileLines(file.value);
      var i := 0;
      while i < |lines|
        invariant 0 <= i <= |lines|
        invariant values == ApplyLines(old(values), lines[..i])
      {
        ApplyLinesStep(old(values), lines, i);
        ApplyLineIs(values, lines[i]);
        // trim, skip blank/comment/`=`-less lines, split at the first `=`, trim both sides, skip an
        // empty side or a value `std::stoi` rejects
        var setting := ParseLine(lines[i]);
        if setting.Some? {
          var _ := SetKv(setting.value.0, setting.value.1);
        }
        i := i + 1;
      }
      assert lines[..i] == lines;
      return true;
    }
  }
}
