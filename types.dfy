/** Record shapes shared by the mood engine, the session and the pages
    (src/types/index.ts), plus the browser's key/value storage. */
module Types {

  datatype Option<+T> = None | Some(value: T)

  /** Milliseconds in one day: the step between two UTC day keys. */
  const MsPerDay: int := 86400000

  /** The storage key the check-in list is saved under. */
  const MoodEntriesKey: string := "moodEntries"

  /** A check-in. `date` is a timestamp in milliseconds since the epoch;
      `tenths` is the catalog sentiment copied at creation, in tenths. */
  datatype MoodEntry = MoodEntry(
    id: string,
    date: int,
    emoji: string,
    tenths: int,
    note: Option<string>,
    userId: Option<string>)

  datatype Badge = Badge(
    id: string,
    name: string,
    description: string,
    icon: string,
    earned: bool,
    earnedAt: Option<int>)

  datatype User = User(
    id: string,
    name: string,
    streak: nat,
    badges: seq<Badge>,
    prefersDarkMode: bool)

  /** The simulated campus aggregate. `date` is never changed by a fold. */
  datatype CommunityMood = CommunityMood(
    date: int,
    moodCounts: map<string, nat>,
    averageSentiment: real,
    totalEntries: nat,
    quotes: seq<string>)

  /** A stored value, taken before JSON serialization. */
  datatype Stored =
    | EntriesBlob(entries: seq<MoodEntry>)
    | UserBlob(user: User)
    | Text(text: string)

  /** The browser's per-origin key/value storage, shared by every context. */
  class LocalStorage {
    var items: map<string, Stored>

    constructor (initial: map<string, Stored>)
      ensures items == initial
    {
      items := initial;
    }

    /** `localStorage.setItem(key, value)`. */
    method SetItem(key: string, value: Stored)
      modifies this
      ensures items == old(items)[key := value]
    {
      items := items[key := value];
    }

    /** `localStorage.removeItem(key)`: absent keys are ignored. */
    method RemoveItem(key: string)
      modifies this
      ensures items == old(items) - {key}
    {
      items := items - {key};
    }
  }
}
