# λF simulation engine — a Dafny model

The λF simulation page lets a user set a sentiment score (−1.0 to 1.0) and a
tweet volume (0 or more) for each topic of a defaults list, and scores the
result as a single "sentiment pressure" indicator λF:

- the page collects the values into a dictionary `simulation_inputs`, keyed
  by topic keyword, one assignment `simulation_inputs[keyword] = …` per
  topic;
- `calculate_lambda_f` walks the dictionary's values once, accumulating
  Σ volume·sentiment and Σ volume; the average sentiment is their quotient,
  or 0 when the total volume is 0; λF is `min(max(avg + 0.5, 0), 1)`;
- when a run is saved, λF is classified as `"Critical"` above 0.7,
  `"Risky"` above 0.5 and `"Normal"` otherwise.

The model has four modules:

- `Inputs` (`inputs.dfy`): a topic's reading, the dictionary as an
  insertion-ordered list of key/value pairs with Python dict assignment
  (`Assign`), and the loop that builds it (`BuildInputs`, proved equal to
  the fold `FromTopics`). Lemmas show that keys are unique, that the keys
  are the keywords, that the last write wins, and that two dictionaries
  with the same mapping hold the same values.
- `Scoring` (`scoring.dfy`): the recursive sums, the average and λF as
  functions, and `CalculateLambdaF`, the accumulator loop proved against
  them. Lemmas cover order independence, the zero-volume case, bounds on
  the average, and a characterisation of the average as the balance point
  of the volume-weighted deviations.
- `Status` (`status.dfy`): the risk tier with its thresholds, the saved
  status string, and monotonicity.
- `Simulation` (`simulation.dfy`): one run from topic list to status
  string, plus three worked scenarios.

Numbers are Dafny `real`s. Volumes are `nat`s, which is the volume input's
minimum of 0. The sentiment slider's range is the predicate
`Inputs.InRange`. The values the user enters in the sidebar are taken to
be the values carried by each `Topic`.

On two points the model follows the code where a reader might expect
otherwise:

- The tier is computed only when a run is saved
  (lambda_f_simulation.py:87), not as part of the score. The model keeps it
  as a separate function, `Status.TierOf`.
- No check enforces that a topic keyword is non-empty. The model allows any
  string.

## Model

| member | source | states |
|---|---|---|
| `Inputs.Assign` | lambda_f_simulation.py:49 | after `d[key] = r`, looking up `key` gives `r` and every other key looks up as before |
| `Inputs.AssignKeys` | lambda_f_simulation.py:49 | an assignment adds exactly its key to the dictionary's key set |
| `Inputs.AssignInPlace` | lambda_f_simulation.py:49 | assigning to a present key replaces the pair at that key's index and leaves every other pair where it was |
| `Inputs.AssignKeepsSize` | lambda_f_simulation.py:49 | assigning to a present key keeps the dictionary's size |
| `Inputs.AssignAppends` | lambda_f_simulation.py:49 | assigning to a new key appends its pair at the end, after every existing pair |
| `Inputs.AssignEntries` | lambda_f_simulation.py:49 | every pair after an assignment was already there or is the assigned pair |
| `Inputs.AssignUniqueKeys` | lambda_f_simulation.py:49 | an assignment keeps keys unique |
| `Inputs.BuildInputs` | lambda_f_simulation.py:42-49 | the sidebar loop yields the fold of one assignment per topic, in list order (`FromTopics`) |
| `Inputs.FromTopicsUniqueKeys` | lambda_f_simulation.py:44-49 | the built dictionary holds each keyword once |
| `Inputs.FromTopicsKeys` | lambda_f_simulation.py:44-49 | the built dictionary's keys are exactly the topics' keywords |
| `Inputs.FromTopicsLastWriteWins` | lambda_f_simulation.py:44-49 | under the dictionary assignment rule, a keyword maps to the reading of the last topic that carries it (a rule of the assignment itself; a run of the page with duplicate keywords stops earlier, see below) |
| `Inputs.FromTopicsInRange` | lambda_f_simulation.py:47-49 | when every topic's values are in the sliders' ranges, so is every value of the dictionary |
| `Inputs.SameMappingSameValues` | lambda_f_simulation.py:42-49 | two dictionaries with unique keys and the same key→reading mapping hold the same multiset of values, whatever their insertion order |
| `Scoring.CalculateLambdaF` | lambda_f_simulation.py:55-63 | the loop's accumulators equal Σ volume·sentiment and Σ volume over the visited prefix; the returned average is their quotient, or 0 with no volume; the returned λF is the clamp of that average |
| `Scoring.LambdaF` | lambda_f_simulation.py:62 | λF lies in [0, 1] for every average; it is avg + 0.5 on [−0.5, 0.5], 0 below −0.5 and 1 above 0.5 |
| `Scoring.TotalPermutation` | lambda_f_simulation.py:58-60 | an accumulated sum is the same for every ordering of the readings |
| `Scoring.ScoreIndependentOfOrder` | lambda_f_simulation.py:57-62 | the average and λF depend only on the multiset of readings, not on the order in which they are visited |
| `Scoring.ScoreDependsOnlyOnMapping` | lambda_f_simulation.py:55-61 | two dictionaries with the same key→reading mapping give the same average, whatever their insertion order |
| `Scoring.NoVolumeIffAllSilent` | lambda_f_simulation.py:57-61 | the total volume is never negative, and it is 0 exactly when every reading has volume 0 (in particular for no readings) |
| `Scoring.NoVolumeIsNeutral` | lambda_f_simulation.py:61-62 | without volume, including an empty dictionary, the average is 0 and λF is exactly 0.5 |
| `Scoring.AverageIsBalancePoint` | lambda_f_simulation.py:57-61 | with some volume, a value `a` makes Σ volume·(sentiment − a) vanish exactly when `a` is the computed average, so the average is the volume-weighted mean |
| `Scoring.AverageWithinBounds` | lambda_f_simulation.py:57-61 | with some volume, an average of sentiments that all lie in [lo, hi] lies in [lo, hi] |
| `Scoring.AverageInRange` | lambda_f_simulation.py:47-61 | readings within the slider range −1..1 (any volume ≥ 0) give an average within [−1, 1] |
| `Status.TierOf` | lambda_f_simulation.py:87 | the tier is Critical iff λF > 0.7, Risky iff 0.5 < λF ≤ 0.7, Normal iff λF ≤ 0.5 (so 0.5 is Normal and 0.7 is Risky) |
| `Status.TierMonotone` | lambda_f_simulation.py:87 | a higher λF never gives a less severe tier |
| `Simulation.Simulate` | lambda_f_simulation.py:42-87 | one run returns the average of the built dictionary, its λF and the status string of λF's tier; with in-range inputs the average lies in [−1, 1] |
| `Simulation.OpposingTopicsBalance` | lambda_f_simulation.py:55-63 | topics (1.0, 10) and (−1.0, 10) give average 0, λF 0.5, tier Normal |
| `Simulation.SinglePositiveTopicSaturates` | lambda_f_simulation.py:55-63 | a single topic (0.8, 100) gives average 0.8, λF 1.0, tier Critical |
| `Simulation.NoTopicsNeutral` | lambda_f_simulation.py:55-63 | an empty topic list gives average 0, λF 0.5, tier Normal |

## Left out

- The Streamlit page (setup, sidebar widgets, metrics, charts, tables): user interface. The values entered in the widgets are inputs of the model.
- Duplicate keywords: a second topic with the same keyword creates a second slider with the same widget key `s_<keyword>` (lambda_f_simulation.py:47), and Streamlit rejects duplicate widget keys with an exception, so the page stops with an error there and the assignment at line 49 never runs for the duplicate. The model does not capture that error; `FromTopics` and `FromTopicsLastWriteWins` state what the dictionary assignment at line 49 does with a repeated key, which a run of the page cannot reach.
- Loading the topic defaults from `mock_data.json`, and the stop when it is missing: file I/O. The topic list is a parameter.
- Firebase credentials and app initialisation: secrets and calls into a foreign SDK.
- Saving a run to the store (the document with its server timestamp, error reporting and cache clearing): I/O against an external store. Only the status string the document carries is modelled.
- Reading the simulation history (ordered, limited query, cached, converted to a table), and all of `firebase_reader.py`: network reads and library wrappers.
- Floating-point rounding and the four-decimal display: the arithmetic is over the reals.
