/** The biphoton-cascade trial engine: a seed, an append-only history of
    trial records, a hash-derived prediction bit per trial, the running
    accuracy, the 100-trial driver and the verdict band chosen on the final
    accuracy.

    SHA-256 followed by reading the hex digest as an integer is a value
    `digest: string -> nat` that the engine holds; the random coin flip is an
    input bit. */
module QuantumCollapse {
  import Decimal

  type Bit = b: int | 0 <= b <= 1

  /** One entry of the history: the flip number, the predicted bit, the
      observed bit and whether the two agree. */
  datatype Record = Record(flip: int, prediction: Bit, actual: Bit, correct: bool)

  const DefaultSeed: string := "ejhollenhub2026"
  /** How many of the most recent outcomes feed the hash. */
  const WindowSize: nat := 10
  /** Predict 1 when the hash value modulo 100 is below this. */
  const Threshold: nat := 85
  /** Number of trials the driver runs. */
  const TrialCount: nat := 100

  function Min(a: nat, b: nat): (m: nat)
    ensures m <= a && m <= b && (m == a || m == b)
  {
    if a <= b then a else b
  }

  /** The decimal digit of a bit. */
  function BitChar(b: Bit): (c: char)
    ensures c == '0' || c == '1'
    ensures (c == '1') <==> (b == 1)
  {
    if b == 1 then '1' else '0'
  }

  // ---------------------------------------------------------------------------
  // Prediction
  // ---------------------------------------------------------------------------

  /** The window of the history that feeds the hash: its last ten records
      in order, or all of it while it is shorter. */
  function Recent(h: seq<Record>): (r: seq<Record>)
    ensures |r| == Min(WindowSize, |h|)
    ensures r == h[|h| - |r|..]
  {
    h[|h| - Min(WindowSize, |h|)..]
  }

  /** The digits of the actual outcomes of `rs`, joined in order. */
  function ActualDigits(rs: seq<Record>): (s: string)
    ensures |s| == |rs|
    ensures forall k :: 0 <= k < |rs| ==> s[k] == BitChar(rs[k].actual)
  {
    if rs == [] then "" else ActualDigits(rs[..|rs| - 1]) + [BitChar(rs[|rs| - 1].actual)]
  }

  /** The history string hashed with the seed: the actual outcomes of the
      last ten trials, oldest first. */
  function HistoryString(h: seq<Record>): (s: string)
    ensures |s| == Min(WindowSize, |h|) <= WindowSize
    ensures forall k :: 0 <= k < |s| ==> s[k] == BitChar(Recent(h)[k].actual)
    ensures forall k :: 0 <= k < |s| ==> s[k] == '0' || s[k] == '1'
  {
    ActualDigits(Recent(h))
  }

  /** The hashed string: the seed, then the flip number's numeral, then the
      history string, with no separators. */
  function QuantumState(seed: string, flipNum: int, h: seq<Record>): (s: string)
    ensures |s| == |seed| + |Decimal.IntToString(flipNum)| + Min(WindowSize, |h|)
    ensures s[..|seed|] == seed
    ensures s[|seed|..|s| - |HistoryString(h)|] == Decimal.IntToString(flipNum)
    ensures s[|s| - |HistoryString(h)|..] == HistoryString(h)
  {
    seed + Decimal.IntToString(flipNum) + HistoryString(h)
  }

  /** The parts are joined without a separator, so two trials can hash the
      same string: flip 1 after outcomes 0, 1 and flip 10 after outcome 1. */
  lemma QuantumStateNotInjective(seed: string, a: Record, b: Record)
    requires a.actual == 0 && b.actual == 1
    ensures QuantumState(seed, 1, [a, b]) == QuantumState(seed, 10, [b])
  {
    assert Decimal.IntToString(1) == "1";
    assert Decimal.IntToString(10) == "10";
    assert HistoryString([a, b]) == "01";
    assert HistoryString([b]) == "1";
  }

  function QuantumNumber(seed: string, flipNum: int, h: seq<Record>, digest: string -> nat): (q: nat)
    ensures q < 100
  {
    digest(QuantumState(seed, flipNum, h)) % 100
  }

  /** The prediction bit: 1 exactly when the quantum number is below the
      85 threshold. */
  function Predict(seed: string, flipNum: int, h: seq<Record>, digest: string -> nat): (p: Bit)
    ensures p == 1 <==> QuantumNumber(seed, flipNum, h, digest) < Threshold
  {
    if QuantumNumber(seed, flipNum, h, digest) < Threshold then 1 else 0
  }

  /** The history string depends on nothing but the actual outcomes of the
      last ten records: not on older records, flip numbers, predictions or
      `correct` flags. */
  lemma HistoryStringUsesOnlyRecentActuals(h1: seq<Record>, h2: seq<Record>)
    requires |Recent(h1)| == |Recent(h2)|
    requires forall k :: 0 <= k < |Recent(h1)| ==> Recent(h1)[k].actual == Recent(h2)[k].actual
    ensures HistoryString(h1) == HistoryString(h2)
  {
    var s1, s2 := HistoryString(h1), HistoryString(h2);
    assert |s1| == |s2|;
    forall k | 0 <= k < |s1| ensures s1[k] == s2[k] {
      assert s1[k] == BitChar(Recent(h1)[k].actual);
      assert s2[k] == BitChar(Recent(h2)[k].actual);
    }
  }

  /** Hence so does the prediction: it is a function of the seed, the flip
      number and the last ten actual outcomes only. */
  lemma PredictUsesOnlyRecentActuals(seed: string, flipNum: int, h1: seq<Record>, h2: seq<Record>, digest: string -> nat)
    requires |Recent(h1)| == |Recent(h2)|
    requires forall k :: 0 <= k < |Recent(h1)| ==> Recent(h1)[k].actual == Recent(h2)[k].actual
    ensures Predict(seed, flipNum, h1, digest) == Predict(seed, flipNum, h2, digest)
  {
    HistoryStringUsesOnlyRecentActuals(h1, h2);
  }

  /** Appending one record slides the window: the new outcome enters on the
      right and, once ten outcomes are held, the oldest one leaves. */
  lemma HistoryStringAfterAppend(h: seq<Record>, r: Record)
    ensures HistoryString(h + [r]) ==
            (if |h| < WindowSize then HistoryString(h) else HistoryString(h)[1..]) + [BitChar(r.actual)]
  {
    var h' := h + [r];
    var lhs := HistoryString(h');
    var rhs := (if |h| < WindowSize then HistoryString(h) else HistoryString(h)[1..]) + [BitChar(r.actual)];
    assert |lhs| == |rhs|;
    forall k | 0 <= k < |lhs| ensures lhs[k] == rhs[k] {
      assert lhs[k] == BitChar(Recent(h')[k].actual);
      if k == |lhs| - 1 {
        assert Recent(h')[k] == r;
      } else if |h| < WindowSize {
        assert Recent(h')[k] == h'[k] == h[k] == Recent(h)[k];
      } else {
        assert Recent(h')[k] == h'[|h'| - WindowSize + k] == h[|h| - WindowSize + k + 1] == Recent(h)[k + 1];
      }
    }
  }

  // ---------------------------------------------------------------------------
  // History consistency and replay
  // ---------------------------------------------------------------------------

  /** The record one trial appends to history `h` when the coin comes up
      `outcome`: the prediction is taken from `h` as it stood. */
  function TrialRecord(seed: string, digest: string -> nat, h: seq<Record>, flipNum: int, outcome: Bit): (r: Record)
    ensures r.flip == flipNum && r.actual == outcome
    ensures r.correct <==> r.prediction == r.actual
    ensures r.prediction == Predict(seed, flipNum, h, digest)
  {
    var p := Predict(seed, flipNum, h, digest);
    Record(flipNum, p, outcome, p == outcome)
  }

  /** Record `i` is the one a trial run on the records before it produces. */
  ghost predicate ProducedAt(seed: string, digest: string -> nat, h: seq<Record>, i: nat)
    requires i < |h|
  {
    h[i] == TrialRecord(seed, digest, h[..i], h[i].flip, h[i].actual)
  }

  /** Every record was produced by a trial run on the records before it. */
  ghost predicate Consistent(seed: string, digest: string -> nat, h: seq<Record>) {
    forall i: nat :: i < |h| ==> ProducedAt(seed, digest, h, i)
  }

  function Flips(h: seq<Record>): (f: seq<int>)
    ensures |f| == |h| && forall i :: 0 <= i < |h| ==> f[i] == h[i].flip
  {
    seq(|h|, i requires 0 <= i < |h| => h[i].flip)
  }

  function Actuals(h: seq<Record>): (a: seq<Bit>)
    ensures |a| == |h| && forall i :: 0 <= i < |h| ==> a[i] == h[i].actual
  {
    seq(|h|, i requires 0 <= i < |h| => h[i].actual)
  }

  /** The history a fresh engine holds after a trial numbered `flips[i]`
      for each `i` in turn, with the coin coming up `outcomes[i]`. */
  function Replay(seed: string, digest: string -> nat, flips: seq<int>, outcomes: seq<Bit>): (h: seq<Record>)
    requires |flips| == |outcomes|
    ensures |h| == |flips|
  {
    if flips == [] then []
    else
      var n := |flips| - 1;
      var prior := Replay(seed, digest, flips[..n], outcomes[..n]);
      prior + [TrialRecord(seed, digest, prior, flips[n], outcomes[n])]
  }

  lemma ReplayAppend(seed: string, digest: string -> nat, flips: seq<int>, outcomes: seq<Bit>, flip: int, outcome: Bit)
    requires |flips| == |outcomes|
    ensures Replay(seed, digest, flips + [flip], outcomes + [outcome]) ==
            Replay(seed, digest, flips, outcomes)
            + [TrialRecord(seed, digest, Replay(seed, digest, flips, outcomes), flip, outcome)]
  {
    assert (flips + [flip])[..|flips|] == flips;
    assert (outcomes + [outcome])[..|outcomes|] == outcomes;
  }

  /** Replaying reproduces the flip numbers and outcomes it was given. */
  lemma {:induction false} ReplayRoundTrip(seed: string, digest: string -> nat, flips: seq<int>, outcomes: seq<Bit>)
    requires |flips| == |outcomes|
    ensures forall i :: 0 <= i < |flips| ==>
              Replay(seed, digest, flips, outcomes)[i].flip == flips[i] &&
              Replay(seed, digest, flips, outcomes)[i].actual == outcomes[i]
  {
    if flips != [] {
      var n := |flips| - 1;
      var prior := Replay(seed, digest, flips[..n], outcomes[..n]);
      ReplayRoundTrip(seed, digest, flips[..n], outcomes[..n]);
      var last := TrialRecord(seed, digest, prior, flips[n], outcomes[n]);
      var h := Replay(seed, digest, flips, outcomes);
      assert h == prior + [last];
      forall i | 0 <= i < |h| ensures h[i].flip == flips[i] && h[i].actual == outcomes[i] {
        if i < n {
          assert h[i] == prior[i];
          assert prior[i].flip == flips[..n][i] && prior[i].actual == outcomes[..n][i];
        } else {
          assert h[i] == last;
        }
      }
    }
  }

  /** The same, as sequences: `Flips` and `Actuals` undo `Replay`. */
  lemma ReplayFlipsActuals(seed: string, digest: string -> nat, flips: seq<int>, outcomes: seq<Bit>)
    requires |flips| == |outcomes|
    ensures Flips(Replay(seed, digest, flips, outcomes)) == flips
    ensures Actuals(Replay(seed, digest, flips, outcomes)) == outcomes
  {
    ReplayRoundTrip(seed, digest, flips, outcomes);
  }

  /** Every replayed history is consistent. */
  lemma {:induction false} ReplayConsistent(seed: string, digest: string -> nat, flips: seq<int>, outcomes: seq<Bit>)
    requires |flips| == |outcomes|
    ensures Consistent(seed, digest, Replay(seed, digest, flips, outcomes))
  {
    if flips != [] {
      var n := |flips| - 1;
      var prior := Replay(seed, digest, flips[..n], outcomes[..n]);
      ReplayConsistent(seed, digest, flips[..n], outcomes[..n]);
      ConsistentAppend(seed, digest, prior, TrialRecord(seed, digest, prior, flips[n], outcomes[n]));
    }
  }

  lemma ConsistentAppend(seed: string, digest: string -> nat, h: seq<Record>, r: Record)
    ensures Consistent(seed, digest, h + [r]) <==>
            Consistent(seed, digest, h) && r == TrialRecord(seed, digest, h, r.flip, r.actual)
  {
    var h' := h + [r];
    assert h'[..|h|] == h;
    forall i: nat | i < |h| ensures ProducedAt(seed, digest, h', i) == ProducedAt(seed, digest, h, i) {
      assert h'[..i] == h[..i] && h'[i] == h[i];
    }
    assert ProducedAt(seed, digest, h', |h|) == (r == TrialRecord(seed, digest, h, r.flip, r.actual));
  }

  /** A history is consistent exactly when it is the replay of its own flip
      numbers and outcomes: the predictions and `correct` flags are fixed by
      the seed, the digest, the flip numbers and the coin. */
  lemma {:induction false} ConsistentIffReplay(seed: string, digest: string -> nat, h: seq<Record>)
    ensures Consistent(seed, digest, h) <==> h == Replay(seed, digest, Flips(h), Actuals(h))
  {
    if h != [] {
      var n := |h| - 1;
      var prior := h[..n];
      assert h == prior + [h[n]];
      assert Flips(h)[..n] == Flips(prior);
      assert Actuals(h)[..n] == Actuals(prior);
      ConsistentAppend(seed, digest, prior, h[n]);
      ConsistentIffReplay(seed, digest, prior);
      var replayed := Replay(seed, digest, Flips(h), Actuals(h));
      assert replayed == Replay(seed, digest, Flips(prior), Actuals(prior))
                         + [TrialRecord(seed, digest, Replay(seed, digest, Flips(prior), Actuals(prior)), h[n].flip, h[n].actual)];
      if h == replayed {
        assert replayed[..n] == Replay(seed, digest, Flips(prior), Actuals(prior));
      }
    }
  }

  // ---------------------------------------------------------------------------
  // Accuracy
  // ---------------------------------------------------------------------------

  /** The number of records marked correct. */
  function CountCorrect(h: seq<Record>): (n: nat)
    ensures n <= |h|
  {
    if h == [] then 0 else CountCorrect(h[..|h| - 1]) + (if h[|h| - 1].correct then 1 else 0)
  }

  /** One more record adds one to the count exactly when it is correct. */
  lemma CountCorrectAppend(h: seq<Record>, r: Record)
    ensures CountCorrect(h + [r]) == CountCorrect(h) + (if r.correct then 1 else 0)
  {
    assert (h + [r])[..|h|] == h;
  }

  /** The indices of the correct records, an independent reading of the count. */
  ghost function CorrectIndices(h: seq<Record>): set<nat> {
    set i: nat | i < |h| && h[i].correct
  }

  lemma {:induction false} CountCorrectIsCardinality(h: seq<Record>)
    ensures CountCorrect(h) == |CorrectIndices(h)|
  {
    if h != [] {
      var n := |h| - 1;
      var prior := h[..n];
      CountCorrectIsCardinality(prior);
      if h[n].correct {
        assert CorrectIndices(h) == CorrectIndices(prior) + {n};
      } else {
        assert CorrectIndices(h) == CorrectIndices(prior);
      }
    }
  }

  lemma {:induction false} CountCorrectAll(h: seq<Record>)
    ensures CountCorrect(h) == |h| <==> forall i :: 0 <= i < |h| ==> h[i].correct
    ensures CountCorrect(h) == 0 <==> forall i :: 0 <= i < |h| ==> !h[i].correct
  {
    if h != [] {
      var n := |h| - 1;
      var prior := h[..n];
      CountCorrectAll(prior);
      assert forall i :: 0 <= i < n ==> prior[i] == h[i];
    }
  }

  /** `part` out of `whole` as an exact percentage. */
  function Percent(part: nat, whole: nat): (p: real)
    requires 0 < whole && part <= whole
    ensures 0.0 <= p <= 100.0
    ensures p * (whole as real) == 100.0 * (part as real)
  {
    (part as real / whole as real) * 100.0
  }

  /** The accuracy of a history, as an exact percentage: 50 while it is
      empty, otherwise the share of correct records. */
  function AccuracyOf(h: seq<Record>): (acc: real)
    ensures 0.0 <= acc <= 100.0
    ensures h == [] ==> acc == 50.0
    ensures h != [] ==> acc * (|h| as real) == 100.0 * (CountCorrect(h) as real)
  {
    if h == [] then 50.0 else Percent(CountCorrect(h), |h|)
  }

  /** A non-empty history scores 100 exactly when every trial was correct and
      0 exactly when none was. */
  lemma AccuracyExtremes(h: seq<Record>)
    requires h != []
    ensures AccuracyOf(h) == 100.0 <==> forall i :: 0 <= i < |h| ==> h[i].correct
    ensures AccuracyOf(h) == 0.0 <==> forall i :: 0 <= i < |h| ==> !h[i].correct
  {
    CountCorrectAll(h);
    var c, n := CountCorrect(h) as real, |h| as real;
    assert AccuracyOf(h) == Percent(CountCorrect(h), |h|) == (c / n) * 100.0;
    assert c / n == 1.0 <==> c == n;
    assert c / n == 0.0 <==> c == 0.0;
  }

  /** One more trial adds one to the denominator and one to the numerator
      exactly when the new trial was correct. */
  lemma AccuracyAfterTrial(h: seq<Record>, r: Record)
    ensures AccuracyOf(h + [r]) == Percent(CountCorrect(h) + (if r.correct then 1 else 0), |h| + 1)
  {
    CountCorrectAppend(h, r);
  }

  // ---------------------------------------------------------------------------
  // Verdict
  // ---------------------------------------------------------------------------

  datatype Verdict = CollapseConfirmed | StrongEffect | WeakSignal | MarginalEffect | NoEffect

  /** The accuracy band each verdict stands for. */
  predicate InBand(v: Verdict, acc: real) {
    match v
    case CollapseConfirmed => 85.0 <= acc
    case StrongEffect => 70.0 <= acc < 85.0
    case WeakSignal => 60.0 <= acc < 70.0
    case MarginalEffect => 55.0 <= acc < 60.0
    case NoEffect => acc < 55.0
  }

  /** The if/elif chain on the final accuracy picks the band it lies in. */
  function Classify(acc: real): (v: Verdict)
    ensures InBand(v, acc)
  {
    if acc >= 85.0 then CollapseConfirmed
    else if acc >= 70.0 then StrongEffect
    else if acc >= 60.0 then WeakSignal
    else if acc >= 55.0 then MarginalEffect
    else NoEffect
  }

  /** Verdicts ordered from weakest to strongest. */
  function Rank(v: Verdict): (r: nat)
    ensures r <= 4
  {
    match v
    case NoEffect => 0
    case MarginalEffect => 1
    case WeakSignal => 2
    case StrongEffect => 3
    case CollapseConfirmed => 4
  }

  /** The bands do not overlap, so the band chosen is the only one the
      accuracy lies in. */
  lemma BandsDisjoint(acc: real, v: Verdict, w: Verdict)
    requires InBand(v, acc) && InBand(w, acc)
    ensures v == w
  {
  }

  /** A higher accuracy never gets a weaker verdict. */
  lemma ClassifyMonotone(a: real, b: real)
    requires a <= b
    ensures Rank(Classify(a)) <= Rank(Classify(b))
  {
  }

  // ---------------------------------------------------------------------------
  // The engine
  // ---------------------------------------------------------------------------

  class Engine {
    const seed: string
    const digest: string -> nat
    var history: seq<Record>

    ghost predicate Valid()
      reads this
    {
      Consistent(seed, digest, history)
    }

    /** A fresh engine with an empty history; the seed defaults to
        "ejhollenhub2026". */
    constructor (digest: string -> nat, seed: string := DefaultSeed)
      ensures this.seed == seed && this.digest == digest
      ensures history == []
      ensures Valid()
    {
      this.seed := seed;
      this.digest := digest;
      history := [];
    }

    /** The prediction for trial `flipNum` on the current history. */
    function Prediction(flipNum: int): (p: Bit)
      reads this
      ensures p == 1 <==> digest(seed + Decimal.IntToString(flipNum) + HistoryString(history)) % 100 < 85
    {
      Predict(seed, flipNum, history, digest)
    }

    /** One trial: predict from the current history, then record the coin
        flip `outcome` beside the prediction. */
    method RunTrial(flipNum: int, outcome: Bit) returns (prediction: Bit, actual: Bit, correct: bool)
      requires Valid()
      modifies this
      ensures Valid()
      ensures prediction == Predict(seed, flipNum, old(history), digest)
      ensures actual == outcome
      ensures correct <==> prediction == actual
      ensures history == old(history) + [Record(flipNum, prediction, actual, correct)]
    {
      prediction := Prediction(flipNum);
      actual := outcome;
      correct := prediction == actual;
      ConsistentAppend(seed, digest, history, Record(flipNum, prediction, actual, correct));
      history := history + [Record(flipNum, prediction, actual, correct)];
    }

    /** The current accuracy as a percentage. */
    function Accuracy(): (acc: real)
      reads this
      ensures 0.0 <= acc <= 100.0
      ensures history == [] ==> acc == 50.0
      ensures history != [] ==> acc * (|history| as real) == 100.0 * (CountCorrect(history) as real)
    {
      AccuracyOf(history)
    }
  }

  /** The trial numbers the driver uses, 1 to n in increasing order. */
  function OneTo(n: nat): (f: seq<int>)
    ensures |f| == n && forall i :: 0 <= i < n ==> f[i] == i + 1
  {
    seq(n, i => i + 1)
  }

  lemma OneToExtend(n: nat)
    ensures OneTo(n) + [n + 1] == OneTo(n + 1)
  {
    var extended := OneTo(n) + [n + 1];
    forall k | 0 <= k <= n ensures extended[k] == OneTo(n + 1)[k] {
      if k < n {
        assert extended[k] == OneTo(n)[k];
      }
    }
  }

  lemma PrefixExtend(s: seq<Bit>, n: nat)
    requires n < |s|
    ensures s[..n] + [s[n]] == s[..n + 1]
  {
  }

  /** Trial `i` of the driver extends the replay of trials 1 to i - 1. */
  lemma DriverStep(seed: string, digest: string -> nat, outcomes: seq<Bit>, i: nat, h: seq<Record>, r: Record)
    requires 1 <= i <= |outcomes|
    requires h == Replay(seed, digest, OneTo(i - 1), outcomes[..i - 1])
    requires r == TrialRecord(seed, digest, h, i, outcomes[i - 1])
    ensures h + [r] == Replay(seed, digest, OneTo(i), outcomes[..i])
  {
    OneToExtend(i - 1);
    PrefixExtend(outcomes, i - 1);
    ReplayAppend(seed, digest, OneTo(i - 1), outcomes[..i - 1], i, outcomes[i - 1]);
  }

  /** The experiment without its output: a fresh engine with the default
      seed runs trials 1 to 100, `outcomes` giving the coin flips in order;
      the result is the engine, the final accuracy and the verdict band. */
  method RunQuantumPoc(digest: string -> nat, outcomes: seq<Bit>) returns (qc: Engine, finalAcc: real, verdict: Verdict)
    requires |outcomes| == TrialCount
    ensures fresh(qc) && qc.Valid()
    ensures qc.seed == DefaultSeed && qc.digest == digest
    ensures qc.history == Replay(DefaultSeed, digest, OneTo(TrialCount), outcomes)
    ensures |qc.history| == TrialCount
    ensures forall i :: 0 <= i < TrialCount ==> qc.history[i].flip == i + 1 && qc.history[i].actual == outcomes[i]
    ensures finalAcc == AccuracyOf(qc.history)
    ensures verdict == Classify(finalAcc) && InBand(verdict, finalAcc)
  {
    qc := new Engine(digest);
    for i := 1 to TrialCount + 1
      invariant qc.seed == DefaultSeed && qc.digest == digest && qc.Valid()
      invariant qc.history == Replay(DefaultSeed, digest, OneTo(i - 1), outcomes[..i - 1])
    {
      ghost var before := qc.history;
      var prediction, actual, correct := qc.RunTrial(i, outcomes[i - 1]);
      DriverStep(DefaultSeed, digest, outcomes, i, before, Record(i, prediction, actual, correct));
    }
    assert outcomes[..TrialCount] == outcomes;
    ReplayRoundTrip(DefaultSeed, digest, OneTo(TrialCount), outcomes);
    finalAcc := qc.Accuracy();
    verdict := Classify(finalAcc);
  }
}
