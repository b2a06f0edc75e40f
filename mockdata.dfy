/** The seeded campus aggregate and the fixed badge progress table (src/data/mockData.ts). */
module MockData {
  import opened Types

  /** `mockCommunityMood`; its `new Date()` is the parameter-free day 0 here,
      since the fold never reads or changes the date. */
  const MockCommunityMood: CommunityMood := CommunityMood(
    0,
    map["😊" := 23, "😌" := 18, "😐" := 15, "😔" := 12, "😫" := 10, "😄" := 8, "😴" := 7, "🤔" := 5],
    0.15,
    98,
    [
      "Taking it one day at a time.",
      "Feeling better after a good night's sleep!",
      "Midterms are stressing me out, but I'll get through this.",
      "Beautiful day outside - lifted my mood!",
      "Just finished a big project. Exhausted but proud.",
      "Trying to stay positive despite the rain.",
      "Coffee makes everything better :)",
      "Missing home today."
    ])

  datatype Progress = Progress(current: nat, target: nat)

  /** The badge ids the progress table knows. */
  const KnownBadgeIds: seq<string> := ["first-checkin", "three-day-streak", "week-streak", "all-emotions", "journaling"]

  /** The pair each known id gets, position by position. */
  const KnownProgress: seq<Progress> := [Progress(1, 1), Progress(2, 3), Progress(2, 7), Progress(4, 12), Progress(3, 5)]

  /** Mocked progress towards a badge: a fixed pair for the five known ids,
      `{current: 0, target: 1}` for any other. */
  function GetMockBadgeProgress(badgeId: string): (p: Progress)
    ensures p.target >= 1 && p.current <= p.target
    ensures badgeId !in KnownBadgeIds ==> p == Progress(0, 1)
    ensures forall i :: 0 <= i < |KnownBadgeIds| && KnownBadgeIds[i] == badgeId ==> p == KnownProgress[i]
  {
    if badgeId == "first-checkin" then Progress(1, 1)
    else if badgeId == "three-day-streak" then Progress(2, 3)
    else if badgeId == "week-streak" then Progress(2, 7)
    else if badgeId == "all-emotions" then Progress(4, 12)
    else if badgeId == "journaling" then Progress(3, 5)
    else Progress(0, 1)
  }
}
