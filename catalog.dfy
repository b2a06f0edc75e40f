/** The mood catalog and the two banded message tables (src/data/moodOptions.ts). */
module Catalog {
  import opened Types

  /** A catalog row (`label` is a Dafny keyword, hence `moodLabel`). The source's sentiment is a multiple of 0.1; it is kept
      here in tenths, so `tenths == 8` stands for 0.8. */
  datatype MoodOption = MoodOption(emoji: string, moodLabel: string, tenths: int)

  const MoodOptions: seq<MoodOption> := [
    MoodOption("😊", "Happy", 8),
    MoodOption("😄", "Excited", 9),
    MoodOption("😌", "Content", 6),
    MoodOption("😐", "Neutral", 0),
    MoodOption("😕", "Confused", -3),
    MoodOption("😔", "Sad", -7),
    MoodOption("😡", "Angry", -8),
    MoodOption("😫", "Stressed", -6),
    MoodOption("😴", "Tired", -4),
    MoodOption("🥰", "Loved", 9),
    MoodOption("🤔", "Thoughtful", 1),
    MoodOption("😮", "Surprised", 2)
  ]

  /** A tenths value as the real number the source stores. */
  function Real(tenths: int): real
  {
    tenths as real / 10.0
  }

  ghost predicate InCatalog(emoji: string)
  {
    exists o :: o in MoodOptions && o.emoji == emoji
  }

  /** The first row of `options` carrying `emoji`, as `Array.prototype.find` does. */
  function FindIn(options: seq<MoodOption>, emoji: string): (r: Option<MoodOption>)
    ensures r.Some? ==> r.value in options && r.value.emoji == emoji
    ensures r.None? <==> forall o :: o in options ==> o.emoji != emoji
    ensures r.Some? ==> exists i :: 0 <= i < |options| && options[i] == r.value
                         && forall j :: 0 <= j < i ==> options[j].emoji != emoji
  {
    if options == [] then
      None
    else if options[0].emoji == emoji then
      Some(options[0])
    else
      var r := FindIn(options[1..], emoji);
      assert forall o :: o in options[1..] ==> o in options;
      assert options == [options[0]] + options[1..];
      if r.Some? then
        var i :| 0 <= i < |options[1..]| && options[1..][i] == r.value
                 && forall j :: 0 <= j < i ==> options[1..][j].emoji != emoji;
        assert options[i + 1] == r.value;
        assert forall j :: 0 <= j < i + 1 ==> options[j].emoji != emoji by {
          forall j | 0 <= j < i + 1 ensures options[j].emoji != emoji {
            if j > 0 { assert options[j] == options[1..][j - 1]; }
          }
        }
        r
      else
        r
  }

  /** `moodOptions.find(option => option.emoji === emoji)` (getMoodEmoji). */
  function Find(emoji: string): (r: Option<MoodOption>)
    ensures r.Some? <==> InCatalog(emoji)
    ensures r.Some? ==> r.value in MoodOptions && r.value.emoji == emoji
  {
    FindIn(MoodOptions, emoji)
  }

  /** The sentiment the aggregate folds in: the catalog value, or 0 for an
      emoji the catalog does not know. */
  function SentimentOf(emoji: string): (tenths: int)
    ensures -10 <= tenths <= 10
    ensures !InCatalog(emoji) ==> tenths == 0
  {
    match Find(emoji)
    case Some(o) => CatalogInRange(); o.tenths
    case None => 0
  }

  /** A catalog emoji folds in the sentiment of its own row. */
  lemma SentimentOfCatalogRow(o: MoodOption)
    requires o in MoodOptions
    ensures SentimentOf(o.emoji) == o.tenths
  {
    FindIsExact(o);
  }

  /** No emoji occurs twice, so a lookup by emoji is a function. */
  lemma CatalogEmojisDistinct()
    ensures forall i, j :: 0 <= i < j < |MoodOptions| ==> MoodOptions[i].emoji != MoodOptions[j].emoji
  {
  }

  /** Every catalog sentiment is a multiple of 0.1 in [-1, 1]. */
  lemma CatalogInRange()
    ensures forall o :: o in MoodOptions ==> -10 <= o.tenths <= 10 && -1.0 <= Real(o.tenths) <= 1.0
  {
  }

  /** Looking up any catalog row's emoji yields that very row. */
  lemma FindIsExact(o: MoodOption)
    requires o in MoodOptions
    ensures Find(o.emoji) == Some(o)
  {
    CatalogEmojisDistinct();
    var r := Find(o.emoji);
    var i :| 0 <= i < |MoodOptions| && MoodOptions[i] == r.value
             && forall j :: 0 <= j < i ==> MoodOptions[j].emoji != o.emoji;
    var k :| 0 <= k < |MoodOptions| && MoodOptions[k] == o;
  }

  // ---------------------------------------------------------------------
  // getMotivationalMessage

  const MotivationalMessages: seq<string> := [
    "It's okay to not be okay. Remember that feelings are temporary and you're doing your best. Consider reaching out to someone today.",
    "Everyone has ups and downs. Take a moment for yourself today - even a short walk or deep breath can help shift your perspective.",
    "You're showing up for yourself by checking in - that's something to be proud of! What's one small thing you could do today to boost your mood?",
    "You're doing great! This positive energy can help you accomplish something meaningful today. What will you channel it toward?",
    "Wonderful! Your positive state can be contagious - consider sharing some of this good energy with someone else today!"
  ]

  /** The motivational band of a sentiment: how many of the boundaries
      -0.7 (exclusive), 0, 0.3 and 0.7 it lies above. */
  function MotivationBand(sentiment: real): nat
  {
    (if sentiment > -0.7 then 1 else 0) + (if sentiment >= 0.0 then 1 else 0)
    + (if sentiment >= 0.3 then 1 else 0) + (if sentiment >= 0.7 then 1 else 0)
  }

  /** The message for a sentiment; the streak argument is accepted and ignored. */
  function MotivationalMessage(sentiment: real, streak: int): (r: string)
    ensures r == MotivationalMessages[MotivationBand(sentiment)]
  {
    if sentiment <= -0.7 then
      MotivationalMessages[0]
    else if sentiment < 0.0 then
      MotivationalMessages[1]
    else if sentiment < 0.3 then
      MotivationalMessages[2]
    else if sentiment < 0.7 then
      MotivationalMessages[3]
    else
      MotivationalMessages[4]
  }

  /** The streak argument plays no part in the choice. */
  lemma MotivationIgnoresStreak(sentiment: real, a: int, b: int)
    ensures MotivationalMessage(sentiment, a) == MotivationalMessage(sentiment, b)
  {
  }

  /** A higher sentiment never gets a lower band. */
  lemma MotivationBandMonotone(a: real, b: real)
    requires a <= b
    ensures MotivationBand(a) <= MotivationBand(b)
  {
  }

  // ---------------------------------------------------------------------
  // getStreakMessage

  const StartMessage: string := "Start your check-in journey today!"
  const FirstDayMessage: string := "First day checked in! Beginning of a great habit."

  /** Text before and after the number, for the bands below 3, 7, 14, 30 and from 30 on. */
  const StreakTemplates: seq<(string, string)> := [
    ("", " days in a row! Keep it going!"),
    ("", "-day streak! You're building a solid routine."),
    ("Impressive ", "-day streak! You're making this a habit!"),
    ("Amazing ", "-day streak! Your consistency is inspiring!"),
    ("", " DAYS! You're a check-in champion! 🏆")
  ]

  /** How many of the boundaries 3, 7, 14 and 30 the streak has reached. */
  function StreakBand(streak: nat): nat
  {
    (if streak >= 3 then 1 else 0) + (if streak >= 7 then 1 else 0)
    + (if streak >= 14 then 1 else 0) + (if streak >= 30 then 1 else 0)
  }

  function Digit(d: nat): char
    requires d < 10
  {
    "0123456789"[d]
  }

  /** The decimal text of a natural number, as a template literal renders it. */
  function Decimal(n: nat): (s: string)
    ensures |s| >= 1 && IsDigits(s)
    ensures |s| > 1 ==> s[0] != '0'
  {
    if n < 10 then [Digit(n)] else Decimal(n / 10) + [Digit(n % 10)]
  }

  predicate IsDigits(s: string)
  {
    forall i :: 0 <= i < |s| ==> '0' <= s[i] <= '9'
  }

  /** Reads a string of digits back as a number. */
  function DecimalValue(s: string): nat
    requires IsDigits(s)
  {
    if s == [] then 0
    else
      var last := s[|s| - 1];
      DecimalValue(s[..|s| - 1]) * 10 + ((last as int) - ('0' as int))
  }

  /** The rendered number reads back as the streak itself. */
  lemma {:induction false} DecimalRoundTrip(n: nat)
    ensures DecimalValue(Decimal(n)) == n
  {
    var s := Decimal(n);
    if n >= 10 {
      DecimalRoundTrip(n / 10);
      assert s[..|s| - 1] == Decimal(n / 10);
    }
  }

  function StreakMessage(streak: nat): (r: string)
    ensures streak == 0 ==> r == StartMessage
    ensures streak == 1 ==> r == FirstDayMessage
    ensures streak >= 2 ==>
      r == StreakTemplates[StreakBand(streak)].0 + Decimal(streak) + StreakTemplates[StreakBand(streak)].1
  {
    if streak == 0 then
      StartMessage
    else if streak == 1 then
      FirstDayMessage
    else if streak < 3 then
      assert StreakBand(streak) == 0 && "" + Decimal(streak) == Decimal(streak);
      Decimal(streak) + " days in a row! Keep it going!"
    else if streak < 7 then
      assert StreakBand(streak) == 1 && "" + Decimal(streak) == Decimal(streak);
      Decimal(streak) + "-day streak! You're building a solid routine."
    else if streak < 14 then
      assert StreakBand(streak) == 2;
      "Impressive " + Decimal(streak) + "-day streak! You're making this a habit!"
    else if streak < 30 then
      assert StreakBand(streak) == 3;
      "Amazing " + Decimal(streak) + "-day streak! Your consistency is inspiring!"
    else
      assert StreakBand(streak) == 4 && "" + Decimal(streak) == Decimal(streak);
      Decimal(streak) + " DAYS! You're a check-in champion! 🏆"
  }

  /** `w` occurs in `s` starting at position `i`. */
  ghost predicate OccursAt(w: string, s: string, i: int)
  {
    0 <= i <= |s| - |w| && s[i..i + |w|] == w
  }

  /** From 2 on, the message shows the streak number, and that text reads back as the streak. */
  lemma StreakMessageShowsCount(streak: nat)
    requires streak >= 2
    ensures exists i :: OccursAt(Decimal(streak), StreakMessage(streak), i)
    ensures DecimalValue(Decimal(streak)) == streak
  {
    var t := StreakTemplates[StreakBand(streak)];
    var d := Decimal(streak);
    var r := StreakMessage(streak);
    assert r[|t.0|..|t.0| + |d|] == d;
    assert OccursAt(d, r, |t.0|);
    DecimalRoundTrip(streak);
  }
}
