/**
 * The per-topic inputs of the simulation: the reading entered for each topic
 * and the dictionary `simulation_inputs` that collects them, keyed by topic.
 *
 * The dictionary is an insertion-ordered association list, as a Python dict
 * is: assigning to a key already present replaces its value where it stands,
 * assigning to a new key appends it at the end.
 */
module Inputs {

  datatype Option<T> = None | Some(value: T)

  /** The sentiment score and tweet volume entered for one topic. */
  datatype Reading = Reading(sentiment: real, volume: nat)

  /** The sentiment slider's range; the volume input's minimum of 0 is the type `nat`. */
  predicate InRange(r: Reading)
  {
    -1.0 <= r.sentiment <= 1.0
  }

  /** A topic of the defaults list, carrying the values entered for it in the sidebar. */
  datatype Topic = Topic(keyword: string, sentimentScore: real, tweetCount: nat)
  {
    function ToReading(): Reading
    {
      Reading(sentimentScore, tweetCount)
    }
  }

  /** One key/value pair of the dictionary. */
  datatype Entry = Entry(topic: string, reading: Reading)

  /** The dictionary, its pairs in insertion order. */
  type Dict = seq<Entry>

  ghost predicate UniqueKeys(d: Dict)
  {
    forall i, j | 0 <= i < j < |d| :: d[i].topic != d[j].topic
  }

  function Keys(d: Dict): set<string>
  {
    set e | e in d :: e.topic
  }

  /** `d.values()`, in iteration order. */
  function Values(d: Dict): seq<Reading>
  {
    seq(|d|, i requires 0 <= i < |d| => d[i].reading)
  }

  /** `d[key]` when the key is present. */
  function Lookup(d: Dict, key: string): (r: Option<Reading>)
    ensures r.None? <==> key !in Keys(d)
    ensures r.Some? ==> Entry(key, r.value) in d
  {
    if d == [] then None
    else if d[0].topic == key then Some(d[0].reading)
    else
      assert Keys(d) == {d[0].topic} + Keys(d[1..]);
      Lookup(d[1..], key)
  }

  /** `d[key] = r`. */
  function Assign(d: Dict, key: string, r: Reading): (d': Dict)
    ensures Lookup(d', key) == Some(r)
    ensures forall k | k != key :: Lookup(d', k) == Lookup(d, k)
  {
    if d == [] then [Entry(key, r)]
    else if d[0].topic == key then [Entry(key, r)] + d[1..]
    else
      var rest := Assign(d[1..], key, r);
      assert ([d[0]] + rest)[1..] == rest;
      [d[0]] + rest
  }

  /** An assignment adds its key to the keys. */
  lemma {:induction false} AssignKeys(d: Dict, key: string, r: Reading)
    ensures Keys(Assign(d, key, r)) == Keys(d) + {key}
  {
    if d != [] {
      assert Keys(d) == {d[0].topic} + Keys(d[1..]);
      if d[0].topic == key {
        assert Keys([Entry(key, r)] + d[1..]) == {key} + Keys(d[1..]);
      } else {
        var rest := Assign(d[1..], key, r);
        AssignKeys(d[1..], key, r);
        assert Keys([d[0]] + rest) == {d[0].topic} + Keys(rest);
      }
    }
  }

  /** A key already present has its value replaced where it stands; nothing else moves. */
  lemma {:induction false} AssignInPlace(d: Dict, key: string, r: Reading, i: nat)
    requires i < |d| && d[i].topic == key
    requires forall j | 0 <= j < i :: d[j].topic != key
    ensures Assign(d, key, r) == d[i := Entry(key, r)]
  {
    if i > 0 {
      AssignInPlace(d[1..], key, r, i - 1);
    }
  }

  /** An assignment to a key already present keeps the dictionary's size. */
  lemma {:induction false} AssignKeepsSize(d: Dict, key: string, r: Reading)
    requires key in Keys(d)
    ensures |Assign(d, key, r)| == |d|
  {
    assert Keys(d) == {d[0].topic} + Keys(d[1..]);
    if d[0].topic != key {
      AssignKeepsSize(d[1..], key, r);
    }
  }

  /** An assignment to a new key appends it at the end. */
  lemma {:induction false} AssignAppends(d: Dict, key: string, r: Reading)
    requires key !in Keys(d)
    ensures Assign(d, key, r) == d + [Entry(key, r)]
  {
    if d != [] {
      assert d[0].topic in Keys(d) by { assert d[0] in d; }
      assert key !in Keys(d[1..]) by {
        forall e | e in d[1..] ensures e.topic != key { assert e in d; }
      }
      AssignAppends(d[1..], key, r);
      assert d + [Entry(key, r)] == [d[0]] + (d[1..] + [Entry(key, r)]);
    }
  }

  /** Every pair after an assignment was there before, or is the one assigned. */
  lemma {:induction false} AssignEntries(d: Dict, key: string, r: Reading)
    ensures forall e | e in Assign(d, key, r) :: e in d || e == Entry(key, r)
  {
    if d != [] && d[0].topic != key {
      AssignEntries(d[1..], key, r);
    }
  }

  /** An assignment keeps every key unique. */
  lemma {:induction false} AssignUniqueKeys(d: Dict, key: string, r: Reading)
    requires UniqueKeys(d)
    ensures UniqueKeys(Assign(d, key, r))
  {
    if d != [] && d[0].topic != key {
      var rest := Assign(d[1..], key, r);
      AssignUniqueKeys(d[1..], key, r);
      AssignKeys(d[1..], key, r);
      var d' := [d[0]] + rest;
      forall i, j | 0 <= i < j < |d'| ensures d'[i].topic != d'[j].topic {
        if i == 0 {
          assert d'[j].topic in Keys(rest) by { assert d'[j] == rest[j - 1]; }
          assert d[0].topic !in Keys(d[1..]);
        }
      }
    }
  }

  /** The dictionary the sidebar loop builds from the topic list. */
  function FromTopics(topics: seq<Topic>): Dict
  {
    if topics == [] then []
    else
      var last := topics[|topics| - 1];
      Assign(FromTopics(topics[..|topics| - 1]), last.keyword, last.ToReading())
  }

  /** The sidebar loop: one assignment per topic, in list order. */
  method BuildInputs(topics: seq<Topic>) returns (inputs: Dict)
    ensures inputs == FromTopics(topics)
  {
    inputs := [];
    for i := 0 to |topics|
      invariant inputs == FromTopics(topics[..i])
    {
      assert topics[..i + 1][..i] == topics[..i];
      inputs := Assign(inputs, topics[i].keyword, topics[i].ToReading());
    }
    assert topics[..|topics|] == topics;
  }

  /** Every keyword occurs in the dictionary exactly once. */
  lemma {:induction false} FromTopicsUniqueKeys(topics: seq<Topic>)
    ensures UniqueKeys(FromTopics(topics))
  {
    if topics != [] {
      var init, last := topics[..|topics| - 1], topics[|topics| - 1];
      FromTopicsUniqueKeys(init);
      AssignUniqueKeys(FromTopics(init), last.keyword, last.ToReading());
    }
  }

  /** The keywords of a topic list. */
  function Keywords(topics: seq<Topic>): set<string>
  {
    set t | t in topics :: t.keyword
  }

  lemma KeywordsSnoc(init: seq<Topic>, last: Topic)
    ensures Keywords(init + [last]) == Keywords(init) + {last.keyword}
  {
    var all := init + [last];
    forall k ensures k in Keywords(all) <==> k in Keywords(init) || k == last.keyword {
      if k in Keywords(all) {
        var t :| t in all && t.keyword == k;
        assert t in init || t == last;
      }
      if k in Keywords(init) {
        var t :| t in init && t.keyword == k;
        assert t in all;
      }
    }
  }

  /** The dictionary's keys are exactly the keywords of the topic list. */
  lemma {:induction false} FromTopicsKeys(topics: seq<Topic>)
    ensures Keys(FromTopics(topics)) == Keywords(topics)
  {
    if topics == [] {
      assert Keys([]) == {};
    } else {
      var init := topics[..|topics| - 1];
      var last := topics[|topics| - 1];
      var d0 := FromTopics(init);
      assert FromTopics(topics) == Assign(d0, last.keyword, last.ToReading());
      FromTopicsKeys(init);
      AssignKeys(d0, last.keyword, last.ToReading());
      assert topics == init + [last];
      KeywordsSnoc(init, last);
    }
  }

  /** A keyword maps to the reading of the last topic that carries it. */
  lemma {:induction false} FromTopicsLastWriteWins(topics: seq<Topic>, i: nat)
    requires i < |topics|
    requires forall j | i < j < |topics| :: topics[j].keyword != topics[i].keyword
    ensures Lookup(FromTopics(topics), topics[i].keyword) == Some(topics[i].ToReading())
  {
    var n := |topics|;
    if i < n - 1 {
      FromTopicsLastWriteWins(topics[..n - 1], i);
    }
  }

  /** When every topic's values are in the widgets' ranges, so is every value of the dictionary. */
  lemma {:induction false} FromTopicsInRange(topics: seq<Topic>)
    requires forall t | t in topics :: InRange(t.ToReading())
    ensures forall r | r in Values(FromTopics(topics)) :: InRange(r)
  {
    if topics != [] {
      var init := topics[..|topics| - 1];
      var last := topics[|topics| - 1];
      FromTopicsInRange(init);
      AssignEntries(FromTopics(init), last.keyword, last.ToReading());
      var d := FromTopics(topics);
      forall r | r in Values(d) ensures InRange(r) {
        var k :| 0 <= k < |d| && Values(d)[k] == r;
        assert d[k] in d;
        if d[k] != Entry(last.keyword, last.ToReading()) {
          var d0 := FromTopics(init);
          var k0 :| 0 <= k0 < |d0| && d0[k0] == d[k];
          assert Values(d0)[k0] == r;
        }
      }
    }
  }

  /** With unique keys, a pair of the dictionary is what a lookup of its key finds. */
  lemma {:induction false} LookupUnique(d: Dict, e: Entry)
    requires UniqueKeys(d)
    requires e in d
    ensures Lookup(d, e.topic) == Some(e.reading)
  {
    if d[0] != e {
      assert d[0].topic != e.topic by {
        var k :| 0 <= k < |d| && d[k] == e;
      }
      LookupUnique(d[1..], e);
    }
  }

  /** In a dictionary with unique keys every pair occurs once. */
  lemma {:induction false} OccursOnce(d: Dict, e: Entry)
    requires UniqueKeys(d)
    ensures multiset(d)[e] == if e in d then 1 else 0
  {
    if d != [] {
      assert d == [d[0]] + d[1..];
      OccursOnce(d[1..], e);
      if d[0] == e {
        assert e !in d[1..];
      }
    }
  }

  /** Removing the pair at index `j` removes one occurrence of it. */
  lemma RemoveAt(b: Dict, j: nat)
    requires j < |b|
    ensures multiset(b[..j] + b[j + 1..]) == multiset(b) - multiset{b[j]}
  {
    assert b == b[..j] + [b[j]] + b[j + 1..];
  }

  /** Removing the pair at index `j` removes one occurrence of its value. */
  lemma ValuesRemoveAt(b: Dict, j: nat)
    requires j < |b|
    ensures multiset(Values(b)) == multiset(Values(b[..j] + b[j + 1..])) + multiset{b[j].reading}
  {
    var vs, ws := Values(b), Values(b[..j] + b[j + 1..]);
    assert vs == vs[..j] + [b[j].reading] + vs[j + 1..];
    assert ws == vs[..j] + vs[j + 1..];
  }

  /** Reordering the pairs reorders the values the same way. */
  lemma {:induction false} ValuesPermutation(a: Dict, b: Dict)
    requires multiset(a) == multiset(b)
    ensures multiset(Values(a)) == multiset(Values(b))
  {
    if a == [] {
      assert |b| == |multiset(b)| == 0;
    } else {
      var n := |a|;
      var x := a[n - 1];
      assert x in multiset(a);
      var j :| 0 <= j < |b| && b[j] == x;
      RemoveAt(a, n - 1);
      RemoveAt(b, j);
      assert a[..n - 1] + a[n..] == a[..n - 1];
      ValuesPermutation(a[..n - 1], b[..j] + b[j + 1..]);
      ValuesRemoveAt(a, n - 1);
      ValuesRemoveAt(b, j);
    }
  }

  /**
   * Two dictionaries that map every key to the same reading hold the same
   * values, whatever the order in which their keys were inserted.
   */
  lemma SameMappingSameValues(d1: Dict, d2: Dict)
    requires UniqueKeys(d1) && UniqueKeys(d2)
    requires forall k :: Lookup(d1, k) == Lookup(d2, k)
    ensures multiset(Values(d1)) == multiset(Values(d2))
  {
    forall e ensures multiset(d1)[e] == multiset(d2)[e] {
      if e in d1 {
        LookupUnique(d1, e);
        assert Lookup(d2, e.topic) == Some(e.reading);
      }
      if e in d2 {
        LookupUnique(d2, e);
        assert Lookup(d1, e.topic) == Some(e.reading);
      }
      OccursOnce(d1, e);
      OccursOnce(d2, e);
    }
    assert multiset(d1) == multiset(d2);
    ValuesPermutation(d1, d2);
  }
}
