/** The campus page's derived values (src/pages/Community.tsx): the mood
    label and colour of the average, the counts in descending order and the
    largest count. */
module Community {
  import opened Types
  import opened Ordering

  // ---------------------------------------------------------------------
  // getMoodDescription and moodColor

  datatype MoodDescription = Positive | SomewhatPositive | Neutral | SomewhatNegative | Negative

  /** The label's text as the page shows it. */
  function DescriptionText(d: MoodDescription): string
  {
    match d
    case Positive => "Positive"
    case SomewhatPositive => "Somewhat Positive"
    case Neutral => "Neutral"
    case SomewhatNegative => "Somewhat Negative"
    case Negative => "Negative"
  }

  /** `getMoodDescription`: each label owns one interval of the average, and
      the five intervals cover every value without overlapping. */
  function GetMoodDescription(sentiment: real): (d: MoodDescription)
    ensures d == Positive <==> sentiment >= 0.5
    ensures d == SomewhatPositive <==> 0.1 <= sentiment < 0.5
    ensures d == Neutral <==> -0.1 < sentiment < 0.1
    ensures d == SomewhatNegative <==> -0.5 < sentiment <= -0.1
    ensures d == Negative <==> sentiment <= -0.5
  {
    if sentiment >= 0.5 then Positive
    else if sentiment >= 0.1 then SomewhatPositive
    else if sentiment > -0.1 then Neutral
    else if sentiment > -0.5 then SomewhatNegative
    else Negative
  }

  datatype MoodColor = Green | Orange | Blue

  /** The CSS class each colour stands for. */
  function ColorClass(c: MoodColor): string
  {
    match c
    case Green => "text-green-500"
    case Orange => "text-orange-500"
    case Blue => "text-blue-500"
  }

  /** The colour of the campus mood, chosen from the average by its own
      thresholds. */
  function GetMoodColor(sentiment: real): (c: MoodColor)
    ensures c == Green <==> sentiment >= 0.1
    ensures c == Orange <==> sentiment <= -0.1
    ensures c == Blue <==> -0.1 < sentiment < 0.1
  {
    if sentiment >= 0.1 then Green else if sentiment <= -0.1 then Orange else Blue
  }

  /** The colour agrees with the label: green for the two positive labels,
      orange for the two negative ones, blue for neutral. */
  lemma ColorMatchesDescription(sentiment: real)
    ensures GetMoodColor(sentiment) == Green <==>
      GetMoodDescription(sentiment) in {Positive, SomewhatPositive}
    ensures GetMoodColor(sentiment) == Orange <==>
      GetMoodDescription(sentiment) in {SomewhatNegative, Negative}
    ensures GetMoodColor(sentiment) == Blue <==> GetMoodDescription(sentiment) == Neutral
  {
  }

  /** The labels from most negative to most positive. */
  function Rank(d: MoodDescription): nat
  {
    match d
    case Negative => 0
    case SomewhatNegative => 1
    case Neutral => 2
    case SomewhatPositive => 3
    case Positive => 4
  }

  /** A higher average never gets a less positive label. */
  lemma DescriptionMonotone(a: real, b: real)
    requires a <= b
    ensures Rank(GetMoodDescription(a)) <= Rank(GetMoodDescription(b))
  {
  }

  // ---------------------------------------------------------------------
  // sortedMoods and maxCount

  /** The count of an `[emoji, count]` pair: the sort key. */
  function CountKey(entry: (string, nat)): int
  {
    entry.1
  }

  /** The pairs of `m`, each key once, in some order: `Object.entries`. */
  ghost function EntriesOf(m: map<string, nat>): (s: seq<(string, nat)>)
    ensures |s| == |m|
    ensures forall e :: e in s <==> e.0 in m && m[e.0] == e.1
    ensures forall i, j :: 0 <= i < j < |s| ==> s[i].0 != s[j].0
    decreases |m|
  {
    if m == map[] then
      []
    else
      var k :| k in m;
      var rest := m - {k};
      assert |rest| < |m| by {
        assert rest.Keys == m.Keys - {k};
      }
      var tail := EntriesOf(rest);
      var s := [(k, m[k])] + tail;
      assert forall i :: 0 < i < |s| ==> s[i] == tail[i - 1];
      s
  }

  /** `sortedMoods`: the pairs of the count map, largest count first. */
  ghost function SortedMoods(m: map<string, nat>): (r: seq<(string, nat)>)
    ensures NonIncreasing(r, CountKey)
    ensures multiset(r) == multiset(EntriesOf(m))
    ensures |r| == |m|
    ensures forall e :: e in r <==> e.0 in m && m[e.0] == e.1
  {
    var s := EntriesOf(m);
    var r := SortDescending(s, CountKey);
    SortedLength(s, CountKey);
    assert forall e :: e in r <==> e in multiset(s);
    r
  }

  /** `Math.max(...Object.values(counts))`: `None` stands for the `-Infinity`
      of an empty map. */
  ghost function MaxCount(m: map<string, nat>): (r: Option<nat>)
    ensures r.None? <==> m == map[]
    ensures r.Some? ==> forall k :: k in m ==> m[k] <= r.value
    ensures r.Some? ==> exists k :: k in m && m[k] == r.value
    decreases |m|
  {
    if m == map[] then
      None
    else
      var k :| k in m;
      var rest := m - {k};
      assert |rest| < |m| by {
        assert rest.Keys == m.Keys - {k};
      }
      match MaxCount(rest)
      case None =>
        assert m.Keys == {k} by {
          assert rest.Keys == m.Keys - {k};
        }
        Some(m[k])
      case Some(v) =>
        assert forall j :: j in m ==> j == k || j in rest;
        Some(if m[k] >= v then m[k] else v)
  }

  /** In pairs sorted by count, the head's count bounds every count of the map. */
  lemma HeadBoundsCounts(r: seq<(string, nat)>, m: map<string, nat>)
    requires r != [] && NonIncreasing(r, CountKey)
    requires forall e :: e in r <==> e.0 in m && m[e.0] == e.1
    ensures r[0].0 in m && m[r[0].0] == r[0].1
    ensures forall k :: k in m ==> m[k] <= r[0].1
  {
    assert r[0] in r;
    forall k | k in m ensures m[k] <= r[0].1 {
      assert (k, m[k]) in r;
      var i :| 0 <= i < |r| && r[i] == (k, m[k]);
      if i > 0 {
        assert CountKey(r[0]) >= CountKey(r[i]);
      }
    }
  }

  /** The first bar is the longest: the head of the sorted pairs carries the
      largest count. */
  lemma FirstBarIsLongest(m: map<string, nat>)
    requires m != map[]
    ensures SortedMoods(m) != []
    ensures MaxCount(m) == Some(SortedMoods(m)[0].1)
  {
    var r := SortedMoods(m);
    var k :| k in m;
    assert (k, m[k]) in r;
    HeadBoundsCounts(r, m);
    MaxIsHead(m, r[0], MaxCount(m));
  }

  lemma MaxIsHead(m: map<string, nat>, head: (string, nat), mx: Option<nat>)
    requires head.0 in m && m[head.0] == head.1 && forall k :: k in m ==> m[k] <= head.1
    requires mx.Some? && (forall k :: k in m ==> m[k] <= mx.value) && exists k :: k in m && m[k] == mx.value
    ensures mx == Some(head.1)
  {
  }
}
