/** The best-target picker: drop the hackable targets that take too long to
    weaken, score the rest by maximum money over minimum security, keep the
    first highest score, and record it only when it differs from the target
    already recorded. The file contents and the weaken-time estimate arrive as
    parameters. */
module BestTarget {
  import opened Common
  import opened Servers
  import opened ServerNodes

  const MAX_MINUTES: real := 30.0
  /** `1000 * 60 * MAX_MINUTES` milliseconds. */
  const MAX_WEAKEN_TIME: real := 1000.0 * 60.0 * MAX_MINUTES

  /** `hasLongWeakenTime`. */
  predicate HasLongWeakenTime(weakenTime: string -> real, target: string, ms: real) {
    weakenTime(target) > ms
  }

  /** The targets that survive the weaken-time filter, in file order. */
  function Candidates(targets: seq<NodeRecord>, weakenTime: string -> real): (r: seq<NodeRecord>)
    ensures forall x :: x in r <==> x in targets && weakenTime(x.name) <= MAX_WEAKEN_TIME
  {
    var keep := (t: NodeRecord) => !HasLongWeakenTime(weakenTime, t.name, MAX_WEAKEN_TIME);
    assert forall x :: x in Filter(targets, keep) <==> x in targets && keep(x) by {
      forall x {
        FilterMembership(targets, keep, x);
      }
    }
    Filter(targets, keep)
  }

  /** What the in-loop assertion demands of a target's info. */
  predicate ValidInfo(s: Server) {
    s.moneyMax.Some? && s.moneyMax.value > 0.0 && s.minDifficulty.Some?
  }

  /** A score: a ratio, or the infinity a zero minimum security yields. */
  datatype Score = Fin(v: real) | PosInf

  function ScoreOf(s: Server): Score {
    var floor := s.minDifficulty.GetOr(0.0);
    if floor == 0.0 then PosInf else Fin(s.moneyMax.GetOr(0.0) / floor)
  }

  /** JavaScript's `>` on scores. */
  predicate Above(a: Score, b: Score) {
    match (a, b)
    case (PosInf, Fin(_)) => true
    case (Fin(x), Fin(y)) => x > y
    case _ => false
  }

  /** The loop state: the best score so far and the position of the target
      holding it, if any target has replaced the starting choice. */
  datatype Best = Best(score: Score, pick: Option<nat>)

  function ScoreAt(ts: seq<NodeRecord>, j: int): Score
    requires 0 <= j < |ts|
  {
    ScoreOf(ts[j].info)
  }

  /** The scoring loop over the first `k` candidates, starting from score 0. */
  function ScanUpTo(ts: seq<NodeRecord>, k: nat): (b: Best)
    requires k <= |ts|
    ensures b.pick.None? <==> forall j :: 0 <= j < k ==> !Above(ScoreAt(ts, j), Fin(0.0))
    ensures b.pick.None? ==> b.score == Fin(0.0)
    ensures b.pick.Some? ==>
      && b.pick.value < k
      && b.score == ScoreAt(ts, b.pick.value)
      && Above(b.score, Fin(0.0))
      && (forall j :: 0 <= j < k ==> !Above(ScoreAt(ts, j), b.score))
      && (forall j :: 0 <= j < b.pick.value ==> Above(b.score, ScoreAt(ts, j)))
    decreases k
  {
    if k == 0 then Best(Fin(0.0), None)
    else
      var b := ScanUpTo(ts, k - 1);
      var s := ScoreAt(ts, k - 1);
      if Above(s, b.score) then Best(s, Some(k - 1)) else b
  }

  datatype Outcome =
    | ReadFailed
    | Crashed
    | Chosen(result: NodeRecord, written: bool)

  /** One run: a failed read reports an error; an invalid target trips the
      assertion; with no recorded target and no candidate, reading the name
      of the undefined result throws; otherwise the first best-scoring
      candidate (or the starting choice when nothing scores above zero) is
      chosen and written if its name is new. */
  function ChooseBest(currentBest: Option<NodeRecord>, read: Option<seq<NodeRecord>>, weakenTime: string -> real): (r: Outcome)
    ensures r.ReadFailed? <==> read.None?
    ensures read.Some? ==>
      var ts := Candidates(read.value, weakenTime);
      (r.Crashed? <==> (exists i :: 0 <= i < |ts| && !ValidInfo(ts[i].info)) || (currentBest.None? && |ts| == 0))
    ensures r.Chosen? ==> (r.written <==> currentBest.None? || currentBest.value.name != r.result.name)
    ensures r.Chosen? ==> (Some(r.result) == currentBest
      || (read.Some? && r.result in read.value && weakenTime(r.result.name) <= MAX_WEAKEN_TIME))
  {
    match read
    case None => ReadFailed
    case Some(targets) =>
      var ts := Candidates(targets, weakenTime);
      if exists i :: 0 <= i < |ts| && !ValidInfo(ts[i].info) then Crashed
      else if currentBest.None? && |ts| == 0 then Crashed
      else
        var start := if currentBest.Some? then currentBest.value else ts[0];
        var b := ScanUpTo(ts, |ts|);
        var result := if b.pick.Some? then ts[b.pick.value] else start;
        Chosen(result, currentBest.None? || currentBest.value.name != result.name)
  }

  /** When some candidate scores above zero, the chosen target is the first
      candidate with the highest score: no candidate scores higher, and every
      earlier one scores strictly lower. */
  lemma ChosenIsFirstBest(currentBest: Option<NodeRecord>, targets: seq<NodeRecord>, weakenTime: string -> real)
    requires ChooseBest(currentBest, Some(targets), weakenTime).Chosen?
    requires var ts := Candidates(targets, weakenTime);
      exists j :: 0 <= j < |ts| && Above(ScoreAt(ts, j), Fin(0.0))
    ensures var ts := Candidates(targets, weakenTime);
      var result := ChooseBest(currentBest, Some(targets), weakenTime).result;
      exists i :: (0 <= i < |ts| && ts[i] == result
        && (forall j :: 0 <= j < |ts| ==> !Above(ScoreAt(ts, j), ScoreAt(ts, i)))
        && (forall j :: 0 <= j < i ==> Above(ScoreAt(ts, i), ScoreAt(ts, j))))
  {
    var ts := Candidates(targets, weakenTime);
    var b := ScanUpTo(ts, |ts|);
    var i := b.pick.value;
    assert ts[i] == ChooseBest(currentBest, Some(targets), weakenTime).result;
  }

  /** When no candidate scores above zero, the recorded target is kept, or the
      first candidate when none is recorded; nothing is written in the first
      case. */
  lemma NoPositiveScoreKeepsStart(currentBest: Option<NodeRecord>, targets: seq<NodeRecord>, weakenTime: string -> real)
    requires ChooseBest(currentBest, Some(targets), weakenTime).Chosen?
    requires var ts := Candidates(targets, weakenTime);
      forall j :: 0 <= j < |ts| ==> !Above(ScoreAt(ts, j), Fin(0.0))
    ensures var ts := Candidates(targets, weakenTime);
      var r := ChooseBest(currentBest, Some(targets), weakenTime);
      && (currentBest.Some? ==> r.result == currentBest.value && !r.written)
      && (currentBest.None? ==> |ts| > 0 && r.result == ts[0] && r.written)
  {
    var ts := Candidates(targets, weakenTime);
    assert ScanUpTo(ts, |ts|).pick.None?;
  }

  /** A valid candidate whose minimum security is not negative scores above
      zero, so the starting choice is replaced whenever such a candidate
      survives the filter. */
  lemma PositiveScore(s: Server)
    requires ValidInfo(s)
    requires s.minDifficulty.value >= 0.0
    ensures Above(ScoreOf(s), Fin(0.0))
  {
    if s.minDifficulty.value != 0.0 {
      var q := s.moneyMax.value / s.minDifficulty.value;
      assert q * s.minDifficulty.value == s.moneyMax.value;
    }
  }
}
