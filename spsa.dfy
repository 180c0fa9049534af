/** The tuner's integer SPSA machinery (gui.py): the table of tuned parameters, clamping, the
 *  perturbed parameter sets and the rounded update with its forced unit step. The floating-point
 *  factors `ck` and `ak * y` are inputs, and the random signs are a coin per key. */
module Spsa {
  import opened Wrappers
  import opened Text
  import opened Decimal
  import ParamFile
  import EngineParams

  /** One tuned parameter: its key, its value in `default_base_params` and its inclusive range in
   *  `bounds`. */
  datatype Tuned = Tuned(key: string, default: int, lo: int, hi: int)

  /** `default_base_params` and `bounds`, which list the same keys in the same order. */
  const TUNED: seq<Tuned> := [
    Tuned("KingAttackN", 6, 0, 30), Tuned("KingAttackB", 6, 0, 30),
    Tuned("KingAttackR", 4, 0, 30), Tuned("KingAttackQ", 10, 0, 50),
    Tuned("KingAttackAttackerBonus", 10, 0, 60), Tuned("KingAttackScale", 1, 0, 10),
    Tuned("ThreatHangingMinor", 18, 0, 80), Tuned("ThreatHangingRook", 28, 0, 120),
    Tuned("ThreatHangingQueen", 40, 0, 200), Tuned("ThreatPawnBonus", 6, 0, 50),
    Tuned("HistPruneMinDepth", 8, 0, 20), Tuned("HistPruneLateBase", 12, 0, 60),
    Tuned("HistPruneLateMul", 2, 0, 8), Tuned("HistPruneThreshold", -2000, -10000, 0),
    Tuned("LMRGoodHistBonus", -1, -5, 5), Tuned("LMRBadHistBonus", 1, -5, 5),
    Tuned("LMRCheckBonus", -1, -5, 5)
  ]

  /** Distinct keys, as a dictionary has. */
  predicate DistinctKeys(ts: seq<Tuned>)
  {
    forall i, j :: 0 <= i < j < |ts| ==> ts[i].key != ts[j].key
  }

  /** Every range non-empty and holding its default. */
  predicate DefaultsInRange(ts: seq<Tuned>)
  {
    forall i :: 0 <= i < |ts| ==> ts[i].lo <= ts[i].default <= ts[i].hi
  }

  /** Length, first and last character tell the tuned keys apart. */
  function Signature(k: string): (int, char, char)
  {
    if |k| == 0 then (0, ' ', ' ') else (|k|, k[0], k[|k| - 1])
  }

  /** The table is a dictionary whose defaults lie within their bounds. */
  lemma TunedTable()
    ensures DistinctKeys(TUNED) && DefaultsInRange(TUNED)
  {
    TunedSignatures();
  }

  /** The table position a signature belongs to (-1 for none): a key's signature names its row. */
  function SignatureRow(s: (int, char, char)): int
  {
    match s
    case (11, 'K', 'N') => 0
    case (11, 'K', 'B') => 1
    case (11, 'K', 'R') => 2
    case (11, 'K', 'Q') => 3
    case (23, 'K', 's') => 4
    case (15, 'K', 'e') => 5
    case (18, 'T', 'r') => 6
    case (17, 'T', 'k') => 7
    case (18, 'T', 'n') => 8
    case (15, 'T', 's') => 9
    case (17, 'H', 'h') => 10
    case (17, 'H', 'e') => 11
    case (16, 'H', 'l') => 12
    case (18, 'H', 'd') => 13
    case (16, 'L', 's') => 14
    case (15, 'L', 's') => 15
    case (13, 'L', 's') => 16
    case _ => -1
  }

  lemma TunedSignatures()
    ensures forall i :: 0 <= i < |TUNED| ==> SignatureRow(Signature(TUNED[i].key)) == i
  {
    forall i | 0 <= i < |TUNED| ensures SignatureRow(Signature(TUNED[i].key)) == i {
      if i < 4 {
        TunedRows(i, 0, 4);
      } else if i < 8 {
        TunedRows(i, 4, 8);
      } else if i < 12 {
        TunedRows(i, 8, 12);
      } else {
        TunedRows(i, 12, 17);
      }
    }
  }

  /** The rows `lo` to `hi - 1` of the table, one at a time. */
  lemma TunedRows(i: int, lo: int, hi: int)
    requires 0 <= lo <= i < hi <= |TUNED| && hi - lo <= 5
    ensures SignatureRow(Signature(TUNED[i].key)) == i
  {
    if i == lo {
    } else if i == lo + 1 {
    } else if i == lo + 2 {
    } else if i == lo + 3 {
    } else {
      assert i == lo + 4;
    }
  }

  /** A table as a dictionary from key to default. */
  function Defaults(ts: seq<Tuned>): (m: map<string, int>)
    requires DistinctKeys(ts)
    ensures forall i :: 0 <= i < |ts| ==> ts[i].key in m && m[ts[i].key] == ts[i].default
    ensures forall k :: k in m ==> exists i :: 0 <= i < |ts| && ts[i].key == k
  {
    map i | 0 <= i < |ts| :: ts[i].key := ts[i].default
  }

  /** `default_base_params()`. */
  function DefaultBaseParams(): (m: map<string, int>)
    ensures forall i :: 0 <= i < |TUNED| ==> TUNED[i].key in m && TUNED[i].lo <= m[TUNED[i].key] <= TUNED[i].hi
  {
    TunedTable();
    Defaults(TUNED)
  }

  /** The starting point of the tuner: the base file's parameters, or the defaults when it holds none. */
  function InitialTheta(parsed: map<string, int>): (theta: map<string, int>)
    ensures |parsed| > 0 ==> theta == parsed
    ensures |parsed| == 0 ==> forall i :: 0 <= i < |TUNED| ==> TUNED[i].key in theta
  {
    if |parsed| == 0 then DefaultBaseParams() else parsed
  }

  /** `clamp_int`. */
  function ClampInt(x: int, lo: int, hi: int): (r: int)
    ensures lo <= hi ==> lo <= r <= hi
    ensures lo <= x <= hi ==> r == x
    ensures x < lo ==> r == lo
    ensures lo <= x && hi < x ==> r == hi
  {
    if x < lo then lo else if x > hi then hi else x
  }

  /** Clamping is idempotent and brings a value no further from any point of the range. */
  lemma ClampIdempotent(x: int, lo: int, hi: int, y: int)
    requires lo <= y <= hi
    ensures ClampInt(ClampInt(x, lo, hi), lo, hi) == ClampInt(x, lo, hi)
    ensures var c := ClampInt(x, lo, hi); (if c <= y then y - c else c - y) <= (if x <= y then y - x else x - y)
  {
  }

  /** Python's `round` on a float: the nearest integer, ties to the even one. */
  function RoundHalfEven(x: real): (r: int)
    ensures -1.0 / 2.0 <= x - r as real <= 1.0 / 2.0
    ensures x - r as real == 1.0 / 2.0 || x - r as real == -1.0 / 2.0 ==> r % 2 == 0
  {
    var f := x.Floor;
    var d := x - f as real;
    if d < 1.0 / 2.0 then f
    else if d > 1.0 / 2.0 then f + 1
    else if f % 2 == 0 then f
    else f + 1
  }

  /** The nearest integer is unique away from ties. */
  lemma RoundNearest(x: real, n: int)
    requires -1.0 / 2.0 < x - n as real < 1.0 / 2.0
    ensures RoundHalfEven(x) == n
  {
  }

  /** The perturbation size: `round(ck)`, raised to 1. */
  function PerturbStep(ck: real): (step: int)
    ensures step >= 1
    ensures ck >= 1.0 / 2.0 ==> step as real - ck <= 1.0 / 2.0 && ck - step as real <= 1.0 / 2.0
  {
    var s := RoundHalfEven(ck);
    if s < 1 then 1 else s
  }

  /** The Rademacher sign of a key, from its coin. */
  function Delta(coin: string -> bool, k: string): (d: int)
    ensures d == 1 || d == -1
  {
    if coin(k) then 1 else -1
  }

  /** `theta.get(key, 0)`. */
  function Get(theta: map<string, int>, k: string): int
  {
    if k in theta then theta[k] else 0
  }

  /** The keys of a table. */
  function Keys(ts: seq<Tuned>): (ks: set<string>)
    ensures forall i :: 0 <= i < |ts| ==> ts[i].key in ks
  {
    if |ts| == 0 then {} else Keys(ts[..|ts| - 1]) + {ts[|ts| - 1].key}
  }

  lemma {:induction false} KeysBefore(ts: seq<Tuned>, i: int)
    requires 0 <= i < |ts| && DistinctKeys(ts)
    ensures ts[i].key !in Keys(ts[..i])
    decreases i
  {
    if i > 0 {
      var q := ts[..i - 1] + [ts[i]];
      assert DistinctKeys(q) by {
        forall a, b | 0 <= a < b < i ensures q[a].key != q[b].key {
          assert q[a] == ts[a];
        }
      }
      KeysBefore(q, i - 1);
      assert q[..i - 1] == ts[..i - 1];
      assert ts[..i][..i - 1] == ts[..i - 1];
    }
  }

  // ---------------------------------------------------------------- perturbation

  /** One key of `theta_plus` (`up`) or `theta_minus`. */
  function Shifted(theta: map<string, int>, coin: string -> bool, step: int, up: bool, t: Tuned): int
  {
    var d := step * Delta(coin, t.key);
    ClampInt(if up then Get(theta, t.key) + d else Get(theta, t.key) - d, t.lo, t.hi)
  }

  /** Away from the bounds, the two perturbed values sit `step * delta` either side of the old one. */
  lemma ShiftSymmetric(theta: map<string, int>, coin: string -> bool, step: int, t: Tuned)
    requires 0 <= step && t.lo <= Get(theta, t.key) - step && Get(theta, t.key) + step <= t.hi
    ensures Shifted(theta, coin, step, true, t) - Get(theta, t.key) == step * Delta(coin, t.key)
    ensures Get(theta, t.key) - Shifted(theta, coin, step, false, t) == step * Delta(coin, t.key)
  {
    if Delta(coin, t.key) == 1 {
      assert step * Delta(coin, t.key) == step;
    } else {
      assert step * Delta(coin, t.key) == -step;
    }
  }

  /** `theta` with the keys of `ts` replaced by their shifted values. */
  function Perturbed(theta: map<string, int>, coin: string -> bool, step: int, up: bool, ts: seq<Tuned>): (r: map<string, int>)
    ensures r.Keys == theta.Keys + Keys(ts)
  {
    if |ts| == 0 then theta
    else
      var n := |ts| - 1;
      Perturbed(theta, coin, step, up, ts[..n])[ts[n].key := Shifted(theta, coin, step, up, ts[n])]
  }

  /** In a perturbed set the keys of `ts` hold their shifted values and the others are unchanged. */
  lemma {:induction false} PerturbedKeys(theta: map<string, int>, coin: string -> bool, step: int, up: bool, ts: seq<Tuned>, k: string)
    requires DistinctKeys(ts) && k in theta.Keys + Keys(ts)
    ensures forall i :: 0 <= i < |ts| && ts[i].key == k ==> Perturbed(theta, coin, step, up, ts)[k] == Shifted(theta, coin, step, up, ts[i])
    ensures k !in Keys(ts) ==> Perturbed(theta, coin, step, up, ts)[k] == theta[k]
  {
    if |ts| > 0 {
      var n := |ts| - 1;
      var prev := Perturbed(theta, coin, step, up, ts[..n]);
      assert Perturbed(theta, coin, step, up, ts) == prev[ts[n].key := Shifted(theta, coin, step, up, ts[n])];
      if k != ts[n].key {
        PerturbedKeys(theta, coin, step, up, ts[..n], k);
        forall i | 0 <= i < |ts| && ts[i].key == k
          ensures Perturbed(theta, coin, step, up, ts)[k] == Shifted(theta, coin, step, up, ts[i])
        {
          assert ts[..n][i] == ts[i];
        }
      } else {
        forall i | 0 <= i < |ts| && ts[i].key == k
          ensures Perturbed(theta, coin, step, up, ts)[k] == Shifted(theta, coin, step, up, ts[i])
        {
          assert i == n;
        }
      }
    }
  }

  lemma PerturbedStep(theta: map<string, int>, coin: string -> bool, step: int, up: bool, ts: seq<Tuned>, i: int)
    requires 0 <= i < |ts|
    ensures Perturbed(theta, coin, step, up, ts[..i + 1])
         == Perturbed(theta, coin, step, up, ts[..i])[ts[i].key := Shifted(theta, coin, step, up, ts[i])]
  {
    assert ts[..i + 1][..i] == ts[..i];
  }

  /** Every tuned key of `theta_plus` and `theta_minus` lies within its bounds, at its shifted
   *  value; when neither side hits a bound, the two sit symmetrically `step * delta` either side
   *  of `theta`. */
  lemma PerturbInBounds(theta: map<string, int>, bounds: seq<Tuned>, coin: string -> bool, step: int, i: int)
    requires DistinctKeys(bounds) && DefaultsInRange(bounds) && 0 <= i < |bounds|
    ensures var t := bounds[i];
      t.lo <= Perturbed(theta, coin, step, true, bounds)[t.key] <= t.hi &&
      t.lo <= Perturbed(theta, coin, step, false, bounds)[t.key] <= t.hi
    ensures var t, v := bounds[i], Get(theta, bounds[i].key);
      0 <= step && t.lo <= v - step && v + step <= t.hi ==>
        Perturbed(theta, coin, step, true, bounds)[t.key] - v == v - Perturbed(theta, coin, step, false, bounds)[t.key] == step * Delta(coin, t.key)
  {
    var t := bounds[i];
    PerturbedKeys(theta, coin, step, true, bounds, t.key);
    PerturbedKeys(theta, coin, step, false, bounds, t.key);
    assert Perturbed(theta, coin, step, true, bounds)[t.key] == Shifted(theta, coin, step, true, t);
    assert Perturbed(theta, coin, step, false, bounds)[t.key] == Shifted(theta, coin, step, false, t);
    if 0 <= step && t.lo <= Get(theta, t.key) - step && Get(theta, t.key) + step <= t.hi {
      ShiftSymmetric(theta, coin, step, t);
    }
  }

  /** Keys outside `bounds` are copied unchanged into both perturbed sets. */
  lemma PerturbKeepsOthers(theta: map<string, int>, bounds: seq<Tuned>, coin: string -> bool, step: int, k: string)
    requires DistinctKeys(bounds) && k in theta && k !in Keys(bounds)
    ensures Perturbed(theta, coin, step, true, bounds)[k] == theta[k]
    ensures Perturbed(theta, coin, step, false, bounds)[k] == theta[k]
  {
    PerturbedKeys(theta, coin, step, true, bounds, k);
    PerturbedKeys(theta, coin, step, false, bounds, k);
  }

  lemma ShiftedIs(theta: map<string, int>, coin: string -> bool, step: int, t: Tuned, up: int, down: int)
    requires up == ClampInt(Get(theta, t.key) + step * Delta(coin, t.key), t.lo, t.hi)
    requires down == ClampInt(Get(theta, t.key) - step * Delta(coin, t.key), t.lo, t.hi)
    ensures up == Shifted(theta, coin, step, true, t) && down == Shifted(theta, coin, step, false, t)
  {
  }

  /** Builds `theta_plus` and `theta_minus` key by key. */
  method Perturb(theta: map<string, int>, bounds: seq<Tuned>, coin: string -> bool, ck: real) returns (plus: map<string, int>, minus: map<string, int>)
    ensures plus == Perturbed(theta, coin, PerturbStep(ck), true, bounds)
    ensures minus == Perturbed(theta, coin, PerturbStep(ck), false, bounds)
  {
    plus := theta;
    minus := theta;
    for i := 0 to |bounds|
      invariant plus == Perturbed(theta, coin, PerturbStep(ck), true, bounds[..i])
      invariant minus == Perturbed(theta, coin, PerturbStep(ck), false, bounds[..i])
    {
      var key, lo, hi := bounds[i].key, bounds[i].lo, bounds[i].hi;
      var step := RoundHalfEven(ck);
      if step < 1 {
        step := 1;
      }
      var d := step * Delta(coin, key);
      assert step == PerturbStep(ck);
      PerturbedStep(theta, coin, step, true, bounds, i);
      PerturbedStep(theta, coin, step, false, bounds, i);
      var up, down := ClampInt(Get(theta, key) + d, lo, hi), ClampInt(Get(theta, key) - d, lo, hi);
      ShiftedIs(theta, coin, step, bounds[i], up, down);
      plus := plus[key := up];
      minus := minus[key := down];
    }
    assert bounds[..|bounds|] == bounds;
  }

  // ---------------------------------------------------------------- update

  /** The integer update of one key: `round(p)`, where `p` is the float `ak * y * delta`; a zero
   *  is forced to 1 or -1 when `p` is beyond 0.2 either way. */
  function UpdateStep(p: real): (u: int)
    ensures u == 0 <==> -1.0 / 5.0 <= p <= 1.0 / 5.0
    ensures u > 0 <==> p > 1.0 / 5.0
    ensures -4.0 / 5.0 < u as real - p < 4.0 / 5.0
  {
    var u := RoundHalfEven(p);
    if u == 0 then (if p > 1.0 / 5.0 then 1 else if p < -1.0 / 5.0 then -1 else 0) else u
  }

  /** `ak * y * delta[key]`, with `aky` standing for `ak * y`. */
  function Scaled(aky: real, coin: string -> bool, k: string): (p: real)
    ensures p == aky * Delta(coin, k) as real
  {
    if coin(k) then aky else -aky
  }

  /** The new value of a tuned key. */
  function Moved(theta: map<string, int>, coin: string -> bool, aky: real, t: Tuned): int
  {
    ClampInt(Get(theta, t.key) + UpdateStep(Scaled(aky, coin, t.key)), t.lo, t.hi)
  }

  lemma MovedIs(theta: map<string, int>, coin: string -> bool, aky: real, t: Tuned, v: int, upd: int, moved: int)
    requires v == Get(theta, t.key) && upd == UpdateStep(Scaled(aky, coin, t.key))
    requires moved == ClampInt(v + upd, t.lo, t.hi)
    ensures moved == Moved(theta, coin, aky, t)
  {
  }

  /** `theta` after the keys of `ts` are moved, each from its value in `theta`. */
  function Updated(theta: map<string, int>, coin: string -> bool, aky: real, ts: seq<Tuned>): (r: map<string, int>)
    ensures r.Keys == theta.Keys + Keys(ts)
  {
    if |ts| == 0 then theta
    else
      var n := |ts| - 1;
      Updated(theta, coin, aky, ts[..n])[ts[n].key := Moved(theta, coin, aky, ts[n])]
  }

  /** After an update the keys of `ts` hold their moved values and the others are unchanged. */
  lemma {:induction false} UpdatedKeys(theta: map<string, int>, coin: string -> bool, aky: real, ts: seq<Tuned>, k: string)
    requires DistinctKeys(ts) && k in theta.Keys + Keys(ts)
    ensures forall i :: 0 <= i < |ts| && ts[i].key == k ==> Updated(theta, coin, aky, ts)[k] == Moved(theta, coin, aky, ts[i])
    ensures k !in Keys(ts) ==> Updated(theta, coin, aky, ts)[k] == theta[k]
  {
    if |ts| > 0 {
      var n := |ts| - 1;
      var prev := Updated(theta, coin, aky, ts[..n]);
      assert Updated(theta, coin, aky, ts) == prev[ts[n].key := Moved(theta, coin, aky, ts[n])];
      if k != ts[n].key {
        UpdatedKeys(theta, coin, aky, ts[..n], k);
        forall i | 0 <= i < |ts| && ts[i].key == k
          ensures Updated(theta, coin, aky, ts)[k] == Moved(theta, coin, aky, ts[i])
        {
          assert ts[..n][i] == ts[i];
        }
      } else {
        forall i | 0 <= i < |ts| && ts[i].key == k
          ensures Updated(theta, coin, aky, ts)[k] == Moved(theta, coin, aky, ts[i])
        {
          assert i == n;
        }
      }
    }
  }

  lemma UpdatedStep(theta: map<string, int>, coin: string -> bool, aky: real, ts: seq<Tuned>, i: int)
    requires 0 <= i < |ts|
    ensures Updated(theta, coin, aky, ts[..i + 1])
         == Updated(theta, coin, aky, ts[..i])[ts[i].key := Moved(theta, coin, aky, ts[i])]
  {
    assert ts[..i + 1][..i] == ts[..i];
  }

  /** After an update every tuned key lies within its bounds, and a key with room above rises
   *  when `aky * delta` exceeds 0.2, and one with room below falls when it is under -0.2. */
  lemma UpdateInBounds(theta: map<string, int>, bounds: seq<Tuned>, coin: string -> bool, aky: real, i: int)
    requires DistinctKeys(bounds) && DefaultsInRange(bounds) && 0 <= i < |bounds|
    ensures var t := bounds[i]; t.lo <= Updated(theta, coin, aky, bounds)[t.key] <= t.hi
    ensures var t, v := bounds[i], Get(theta, bounds[i].key);
      t.lo <= v < t.hi && Scaled(aky, coin, t.key) > 1.0 / 5.0 ==> Updated(theta, coin, aky, bounds)[t.key] > v
    ensures var t, v := bounds[i], Get(theta, bounds[i].key);
      t.lo < v <= t.hi && Scaled(aky, coin, t.key) < -1.0 / 5.0 ==> Updated(theta, coin, aky, bounds)[t.key] < v
  {
    UpdatedKeys(theta, coin, aky, bounds, bounds[i].key);
  }

  /** Keys outside `bounds` survive an update unchanged. */
  lemma UpdateKeepsOthers(theta: map<string, int>, bounds: seq<Tuned>, coin: string -> bool, aky: real, k: string)
    requires DistinctKeys(bounds) && k in theta && k !in Keys(bounds)
    ensures Updated(theta, coin, aky, bounds)[k] == theta[k]
  {
    UpdatedKeys(theta, coin, aky, bounds, k);
  }

  /** Before its turn, a key of the table still holds its value in `theta`. */
  lemma UnmovedYet(theta: map<string, int>, coin: string -> bool, aky: real, ts: seq<Tuned>, i: int)
    requires DistinctKeys(ts) && 0 <= i < |ts|
    ensures Get(Updated(theta, coin, aky, ts[..i]), ts[i].key) == Get(theta, ts[i].key)
  {
    KeysBefore(ts, i);
    if ts[i].key in theta {
      assert DistinctKeys(ts[..i]);
      UpdatedKeys(theta, coin, aky, ts[..i], ts[i].key);
    }
  }

  /** The update loop: each tuned key is read from `theta` and written back clamped. The loop
   *  reads the map it writes, yet every key is read before it is written. */
  method Update(theta: map<string, int>, bounds: seq<Tuned>, coin: string -> bool, aky: real) returns (next: map<string, int>)
    requires DistinctKeys(bounds)
    ensures next == Updated(theta, coin, aky, bounds)
  {
    next := theta;
    for i := 0 to |bounds|
      invariant next == Updated(theta, coin, aky, bounds[..i])
    {
      var key, lo, hi := bounds[i].key, bounds[i].lo, bounds[i].hi;
      UnmovedYet(theta, coin, aky, bounds, i);
      var upd := UpdateStep(Scaled(aky, coin, key));
      UpdatedStep(theta, coin, aky, bounds, i);
      var moved := ClampInt(Get(next, key) + upd, lo, hi);
      MovedIs(theta, coin, aky, bounds[i], Get(next, key), upd, moved);
      next := next[key := moved];
    }
    assert bounds[..|bounds|] == bounds;
  }

  // ---------------------------------------------------------------- the tuner and the engine

  lemma TunedKeysCapitalised()
    ensures forall i :: 0 <= i < |TUNED| ==> |TUNED[i].key| > 0 && 'A' <= TUNED[i].key[0] <= 'Z'
  {
  }

  lemma EngineKeysLowerCase()
    ensures forall k :: k in EngineParams.KEYS ==> |k| > 0 && 'a' <= k[0] <= 'z'
  {
  }

  /** None of the tuner's keys is a field the engine's loader knows: the tuner's keys are
   *  capitalised and the engine's are lower case. */
  lemma GuiKeysUnknownToEngine()
    ensures forall i :: 0 <= i < |TUNED| ==> TUNED[i].key !in EngineParams.KEYS
  {
    TunedKeysCapitalised();
    EngineKeysLowerCase();
  }

  lemma EngineSkipsComment(line: string)
    requires |line| > 0 && line[0] == '#'
    ensures EngineParams.ParseLine(line) == None
  {
    assert TrimStart(line, C_SPACE) == 0;
    assert TrimEnd(line, C_SPACE) > 0;
    assert Trim(line, C_SPACE)[0] == '#';
  }

  /** The engine reads a tuner `key=value` line under the same key, if it reads it at all. */
  lemma EngineReadsSettingKey(k: string, v: int)
    requires ParamFile.PlainKey(k)
    ensures EngineParams.ParseLine(ParamFile.SettingLine(k, v)).Some? ==> EngineParams.ParseLine(ParamFile.SettingLine(k, v)).value.0 == k
  {
    var line := ParamFile.SettingLine(k, v);
    ParamFile.SettingLineStripped(k, v);
    ParamFile.SettingLineSplits(k, v);
    TrimNarrower(line, PY_SPACE, C_SPACE);
    TrimNarrower(k, PY_SPACE, C_SPACE);
    assert Trim(line, C_SPACE)[..|k|] == k;
  }

  /** No line of a file the tuner wrote sets an engine field, when its keys are unknown to the engine. */
  lemma EngineSkipsTunerLine(params: map<string, int>, header: string, i: int)
    requires forall k :: k in params ==> ParamFile.PlainKey(k) && k !in EngineParams.KEYS
    requires 0 <= i < |ParamFile.TextLines(ParamFile.HeaderLines(header) + ParamFile.SettingLines(params, ParamFile.SortedKeys(params.Keys)))|
    ensures var line := ParamFile.TextLines(ParamFile.HeaderLines(header) + ParamFile.SettingLines(params, ParamFile.SortedKeys(params.Keys)))[i];
      EngineParams.ParseLine(line).Some? ==> EngineParams.ParseLine(line).value.0 !in EngineParams.KEYS
  {
    var heads := ParamFile.HeaderLines(header);
    var keys := ParamFile.SortedKeys(params.Keys);
    var settings := ParamFile.SettingLines(params, keys);
    var lines := heads + settings;
    var all := ParamFile.TextLines(lines);
    if i < |lines| {
      assert all[i] == lines[i];
      if i < |heads| {
        assert lines[i] == heads[i];
        EngineSkipsComment(heads[i]);
      } else {
        var j := i - |heads|;
        assert lines[i] == settings[j];
        EngineReadsSettingKey(keys[j], params[keys[j]]);
      }
    } else {
      assert all[i] == "";
    }
  }

  /** Loading a file the tuner wrote, whose keys the engine does not know (the tuner's own keys,
   *  by GuiKeysUnknownToEngine), leaves every engine parameter as it was. */
  lemma EngineIgnoresTunerFile(vals: map<string, int>, params: map<string, int>, header: string)
    requires forall k :: k in params ==> ParamFile.PlainKey(k) && k !in EngineParams.KEYS
    ensures EngineParams.ApplyLines(vals, EngineParams.FileLines(ParamFile.FileText(params, header))) == vals
  {
    var lines := ParamFile.HeaderLines(header) + ParamFile.SettingLines(params, ParamFile.SortedKeys(params.Keys));
    ParamFile.WrittenLinesPlain(params, header);
    ParamFile.WrittenLines(lines);
    var all := ParamFile.TextLines(lines);
    forall i | 0 <= i < |all| && EngineParams.ParseLine(all[i]).Some?
      ensures EngineParams.ParseLine(all[i]).value.0 !in EngineParams.KEYS
    {
      EngineSkipsTunerLine(params, header, i);
    }
    EngineParams.UnknownKeysChangeNothing(vals, all);
  }
}
