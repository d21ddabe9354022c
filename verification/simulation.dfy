/**
 * One run of the simulation page without its user interface and its store:
 * build the inputs from the topic list, score them, and classify the score.
 */
module Simulation {
  import opened Inputs
  import opened Scoring
  import opened Status

  /** The inputs, the average sentiment, λF and the status string of one run. */
  method Simulate(topics: seq<Topic>) returns (avg: real, lambdaF: real, status: string)
    ensures avg == AverageSentiment(Values(FromTopics(topics)))
    ensures lambdaF == LambdaF(avg)
    ensures status == TierOf(lambdaF).Label()
    ensures (forall t | t in topics :: InRange(t.ToReading())) ==> -1.0 <= avg <= 1.0
  {
    var inputs := BuildInputs(topics);
    avg, lambdaF := CalculateLambdaF(inputs);
    status := TierOf(lambdaF).Label();
    if forall t | t in topics :: InRange(t.ToReading()) {
      FromTopicsInRange(topics);
      AverageInRange(Values(inputs));
    }
  }

  /** Two topics of equal volume and opposite sentiment balance out to a neutral, Normal score. */
  lemma OpposingTopicsBalance()
    ensures var avg := AverageSentiment(Values(FromTopics([Topic("A", 1.0, 10), Topic("B", -1.0, 10)])));
      avg == 0.0 && LambdaF(avg) == 0.5 && TierOf(LambdaF(avg)) == Normal
  {
    var topics := [Topic("A", 1.0, 10), Topic("B", -1.0, 10)];
    assert topics[..1] == [Topic("A", 1.0, 10)];
    var a, b := Entry("A", Reading(1.0, 10)), Entry("B", Reading(-1.0, 10));
    assert FromTopics(topics[..1]) == [a];
    assert "A" != "B" by { assert "A"[0] != "B"[0]; }
    assert [a][1..] == [];
    assert Assign([a], "B", b.reading) == [a, b];
    assert FromTopics(topics) == [a, b];
    var vs := Values(FromTopics(topics));
    assert vs == [Reading(1.0, 10), Reading(-1.0, 10)];
    assert vs[..1] == [Reading(1.0, 10)] && vs[..1][..0] == [];
    assert Total(vs[..1], Contribution) == 10.0 && Total(vs[..1], Volume) == 10.0;
    assert WeightedScore(vs) == 0.0;
    assert TotalVolume(vs) == 20.0;
  }

  /** A single strongly positive topic saturates λF at 1 and is Critical. */
  lemma SinglePositiveTopicSaturates()
    ensures var avg := AverageSentiment(Values(FromTopics([Topic("A", 0.8, 100)])));
      avg == 0.8 && LambdaF(avg) == 1.0 && TierOf(LambdaF(avg)) == Critical
  {
  }

  /** No topics at all give the neutral score. */
  lemma NoTopicsNeutral()
    ensures var avg := AverageSentiment(Values(FromTopics([])));
      avg == 0.0 && LambdaF(avg) == 0.5 && TierOf(LambdaF(avg)) == Normal
  {
  }
}
