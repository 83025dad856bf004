# Biphoton cascade "quantum collapse" trial engine, in Dafny

This project models the trial engine of `quantum_collapse_poc.py`: the
`QuantumCollapse` object with its seed and its append-only history of trial
records, the hash-derived prediction bit, `run_trial`, `get_accuracy`, the
driver loop that runs trials 1 to 100 and the verdict band chosen on the final
accuracy.

- `Decimal.dfy` (module `Decimal`): Python's `str` on integers, the decimal
  numeral of the flip number that goes into the hashed string, with its
  inverse and a round-trip proof.
- `QuantumCollapse.dfy` (module `QuantumCollapse`):
  - `Record`: one history entry (`flip`, `prediction`, `actual`, `correct`).
    The two bits have type `Bit`, which allows only 0 and 1.
  - The prediction as pure functions: `Recent` is `history[-10:]`,
    `HistoryString` is the joined actual digits, `QuantumState` is
    `seed + str(flip_num) + history_str`, `QuantumNumber` is the digest
    modulo 100, and `Predict` tests it against the 85 threshold.
  - `TrialRecord`, `Consistent` and `Replay`: what one trial appends, the
    invariant that every record was predicted from the records before it,
    and the history that a sequence of trials builds.
  - `CountCorrect`, `AccuracyOf`: the accuracy as an exact percentage.
  - `Verdict`, `Classify`, `InBand`: the five result bands.
  - `Engine`: the object itself. It has a `seed` and a `digest`, and a
    `history` field that `RunTrial` extends in place.
  - `RunQuantumPoc`: the 100-trial driver.

SHA-256, the hex digest and the base-16 parse (lines 41-42) are one value,
`digest: string -> nat`. The engine is built with it and keeps it, so the
model holds for every digest function. The coin flip of `pure_random_flip`
is an input bit: `RunTrial` takes it as `outcome`, and the driver takes a
sequence of 100 of them. The constructor takes the digest first and then the
seed, which defaults to `"ejhollenhub2026"` as in the source.

The seed, the numeral and the history string are joined with no separator,
so two different trials can hash the same string (`QuantumStateNotInjective`).
Within one 100-trial run this does not happen, because the strings differ in
length (the window holds i - 1 outcomes for trial i up to 10) or in their
two-digit flip prefix. The model does not prove this last point.

`RunQuantumPoc` also returns the chosen `Verdict`. The source only prints the
band's text. Here the printing is dropped and the choice is returned.

## Model

| member | source | states |
|---|---|---|
| QuantumCollapse.Engine.constructor | quantum_collapse_poc.py:17-19 | a fresh engine keeps the given seed (default "ejhollenhub2026"), has an empty history and satisfies the consistency invariant |
| QuantumCollapse.Engine.Prediction | quantum_collapse_poc.py:26-47 | the prediction on the current history is 1 exactly when digest(seed + str(flip_num) + history string) mod 100 is below 85, else 0 |
| QuantumCollapse.Engine.RunTrial | quantum_collapse_poc.py:49-66 | the prediction is taken from the history before the append; exactly one record (flip, prediction, actual, correct) is appended and earlier records are unchanged; correct iff prediction == actual; the returned triple is the appended record; consistency is preserved |
| QuantumCollapse.Engine.Accuracy | quantum_collapse_poc.py:68-72 | 50 on an empty history; otherwise accuracy × length == 100 × number of correct records; always within [0, 100] |
| QuantumCollapse.RunQuantumPoc | quantum_collapse_poc.py:88-136 | after the loop the history has 100 records, record i has flip number i+1 and the i-th coin outcome, it is exactly the replay of trials 1..100, it is consistent; the final accuracy is that of this history and the verdict is the band it lies in |
| QuantumCollapse.OneTo | quantum_collapse_poc.py:91 | the trial numbers are n values, and the i-th is i + 1, so they run 1..n in increasing order |
| QuantumCollapse.DriverStep | quantum_collapse_poc.py:91-92 | running trial i on the replay of trials 1..i-1 gives the replay of trials 1..i |
| QuantumCollapse.BitChar | quantum_collapse_poc.py:37 | the digit of a bit is '0' or '1', and it is '1' exactly when the bit is 1 |
| QuantumCollapse.Recent | quantum_collapse_poc.py:37 | the window has min(10, len(history)) records and is the suffix of the history of that length, in order |
| QuantumCollapse.ActualDigits | quantum_collapse_poc.py:37 | the joined string has one character per record, and character k is the digit of record k's actual outcome |
| QuantumCollapse.HistoryString | quantum_collapse_poc.py:37 | the history string has length min(10, len(history)), character k is the actual digit of the k-th of the last min(10, len) records, and every character is '0' or '1' |
| QuantumCollapse.QuantumState | quantum_collapse_poc.py:38 | the hashed string has length len(seed) + len(str(flip_num)) + min(10, len(history)); it starts with the seed, continues with the flip number's numeral and ends with the history string |
| QuantumCollapse.QuantumStateNotInjective | quantum_collapse_poc.py:38 | the parts are joined with no separator, so flip 1 after outcomes 0, 1 and flip 10 after outcome 1 hash the same string |
| QuantumCollapse.QuantumNumber | quantum_collapse_poc.py:41-42 | the quantum number is below 100 |
| QuantumCollapse.Predict | quantum_collapse_poc.py:44-45 | the prediction is a bit, and it is 1 exactly when the quantum number is below the threshold 85 |
| QuantumCollapse.HistoryStringUsesOnlyRecentActuals | quantum_collapse_poc.py:37 | two histories whose last ten actual outcomes agree give the same history string, whatever their older records, flip numbers, predictions or correct flags |
| QuantumCollapse.PredictUsesOnlyRecentActuals | quantum_collapse_poc.py:37-45 | the prediction depends only on the seed, the flip number and the last ten actual outcomes |
| QuantumCollapse.HistoryStringAfterAppend | quantum_collapse_poc.py:37 | appending a record slides the window: its digit is added on the right, and once ten are held the oldest leaves |
| QuantumCollapse.TrialRecord | quantum_collapse_poc.py:52-64 | the appended record has the given flip number and outcome, the prediction computed from the prior history, and correct iff prediction == actual |
| QuantumCollapse.ConsistentAppend | quantum_collapse_poc.py:59-64 | a history extended by one record is consistent iff the prefix is consistent and the new record is the trial record of that prefix |
| QuantumCollapse.Replay | quantum_collapse_poc.py:49-66 | replaying n trials yields exactly n records |
| QuantumCollapse.ReplayAppend | quantum_collapse_poc.py:59-64 | replaying one more trial appends that trial's record to the earlier replay, predicted from it |
| QuantumCollapse.ReplayRoundTrip | quantum_collapse_poc.py:59-64 | record i of a replay carries the i-th flip number and the i-th outcome given |
| QuantumCollapse.ReplayFlipsActuals | quantum_collapse_poc.py:59-64 | reading back flip numbers and outcomes from a replay gives the input sequences |
| QuantumCollapse.ReplayConsistent | quantum_collapse_poc.py:52-64 | every replayed history satisfies the consistency invariant |
| QuantumCollapse.ConsistentIffReplay | quantum_collapse_poc.py:52-64 | a history is consistent iff it equals the replay of its own flip numbers and outcomes, so its predictions and correct flags are fixed by seed, digest, flips and coin |
| QuantumCollapse.CountCorrect | quantum_collapse_poc.py:71 | the number of correct records never exceeds the history length |
| QuantumCollapse.CountCorrectIsCardinality | quantum_collapse_poc.py:71 | the count equals the number of indices whose record is correct |
| QuantumCollapse.CountCorrectAll | quantum_collapse_poc.py:71 | the count equals the length iff every record is correct, and is 0 iff none is |
| QuantumCollapse.CountCorrectAppend | quantum_collapse_poc.py:71 | one more record adds one to the count exactly when it is correct |
| QuantumCollapse.Percent | quantum_collapse_poc.py:72 | `correct / len * 100` as an exact real: it lies in [0, 100] and times the length equals 100 × the count |
| QuantumCollapse.AccuracyOf | quantum_collapse_poc.py:68-72 | accuracy is 50 on an empty history; otherwise accuracy × length == 100 × number of correct records; always within [0, 100] |
| QuantumCollapse.AccuracyExtremes | quantum_collapse_poc.py:68-72 | on a non-empty history accuracy is 100 iff every trial was correct and 0 iff none was |
| QuantumCollapse.AccuracyAfterTrial | quantum_collapse_poc.py:59-72 | after one more trial the accuracy is the percentage of (old count + 1 if the new record is correct, else old count) out of (old length + 1) |
| QuantumCollapse.Classify | quantum_collapse_poc.py:117-136 | the verdict chosen lies in its band: ≥85, [70,85), [60,70), [55,60) or <55 |
| QuantumCollapse.BandsDisjoint | quantum_collapse_poc.py:117-136 | no accuracy lies in two bands, so the chosen band is the only one |
| QuantumCollapse.ClassifyMonotone | quantum_collapse_poc.py:117-136 | a higher accuracy never gets a weaker verdict |
| Decimal.NatToString | quantum_collapse_poc.py:38 | the numeral of a natural number is non-empty, all digits, and has no leading zero unless it is "0" |
| Decimal.IntToString | quantum_collapse_poc.py:38 | `str(n)` is non-empty, starts with '-' exactly when n is negative, and is otherwise all digits |
| Decimal.ParseNatToString | quantum_collapse_poc.py:38 | reading the numeral of n back gives n |
| Decimal.IntToStringRoundTrip | quantum_collapse_poc.py:38 | reading `str(n)` back gives n, for negative n too |
| Decimal.IntToStringInjective | quantum_collapse_poc.py:38 | distinct integers have distinct numerals |

## Left out

- `pure_random_flip` (lines 21-24): `random.seed()` and `random.random()` are nondeterministic and are not modelled. The outcome is an input bit, so no statement about its 50/50 distribution is made.
- SHA-256, `hexdigest` and `int(..., 16)` (lines 41-42): these are one arbitrary function `digest: string -> nat`. Nothing is claimed about how hash values are distributed, including the "about 85% ones" expectation.
- `quantum_state.encode()` (line 41): the UTF-8 encoding is part of the abstract digest. The hashed value is the character string.
- `get_accuracy` (lines 68-72): the model uses an exact real, not a float with rounding.
- The standard error, the z-score and the significance thresholds (lines 159-185) use floating point and `sqrt`, so they are not modelled.
- All printing is left out: the progress lines (lines 94-101), the results, the band texts, the interpretation and the statistics output (lines 78-86, 103-157, 169-187). The `__main__` block (lines 192-199) is left out too.
- QuantumCollapse.RunQuantumPoc: the printed `shift` (line 109) is not returned. Only the final accuracy, the engine and the chosen band are.
