/** The session provider (src/context/UserContext.tsx): the signed-in user,
    the guest flag and the storage keys that mirror them. */
module UserContext {
  import opened Types

  const SnugUserKey: string := "snugUser"
  const SnugGuestKey: string := "snugGuest"

  /** The badges every new or cleared user starts with. */
  const InitialBadges: seq<Badge> := [
    Badge("first-checkin", "First Check-in", "Completed your first mood check-in", "🎯", false, None),
    Badge("three-day-streak", "On a Roll", "Checked in for 3 days in a row", "🔥", false, None),
    Badge("week-streak", "Consistency Champion", "Checked in for 7 days in a row", "🏆", false, None),
    Badge("all-emotions", "Emotional Range", "Used all different mood emojis", "🌈", false, None),
    Badge("journaling", "Thoughtful Reflection", "Added journal notes to 5 check-ins", "✍️", false, None)
  ]

  /** Five badges, no two with the same id, none earned yet. */
  lemma InitialBadgesShape()
    ensures |InitialBadges| == 5
    ensures forall i, j :: 0 <= i < j < |InitialBadges| ==> InitialBadges[i].id != InitialBadges[j].id
    ensures forall b :: b in InitialBadges ==> !b.earned && b.earnedAt.None?
  {
  }

  /** A new user as `login` builds it: streak 0, the initial badges, light mode. */
  function NewUser(id: string, name: string): (u: User)
    ensures u.id == id && u.name == name
    ensures u.streak == 0 && u.badges == InitialBadges && !u.prefersDarkMode
  {
    User(id, name, 0, InitialBadges, false)
  }

  /** A `Partial<User>`: the fields an update names, each with its new value. */
  datatype UserPatch = UserPatch(
    id: Option<string>,
    name: Option<string>,
    streak: Option<nat>,
    badges: Option<seq<Badge>>,
    prefersDarkMode: Option<bool>)

  const NoChanges: UserPatch := UserPatch(None, None, None, None, None)

  function Pick<T>(update: Option<T>, current: T): T
  {
    if update.Some? then update.value else current
  }

  /** `{ ...user, ...updates }`: each field named by the patch takes its value,
      every other field keeps the user's. */
  function Apply(u: User, p: UserPatch): (r: User)
    ensures p.id.Some? ==> r.id == p.id.value
    ensures p.id.None? ==> r.id == u.id
    ensures p.name.Some? ==> r.name == p.name.value
    ensures p.name.None? ==> r.name == u.name
    ensures p.streak.Some? ==> r.streak == p.streak.value
    ensures p.streak.None? ==> r.streak == u.streak
    ensures p.badges.Some? ==> r.badges == p.badges.value
    ensures p.badges.None? ==> r.badges == u.badges
    ensures p.prefersDarkMode.Some? ==> r.prefersDarkMode == p.prefersDarkMode.value
    ensures p.prefersDarkMode.None? ==> r.prefersDarkMode == u.prefersDarkMode
  {
    User(Pick(p.id, u.id), Pick(p.name, u.name), Pick(p.streak, u.streak),
         Pick(p.badges, u.badges), Pick(p.prefersDarkMode, u.prefersDarkMode))
  }

  /** The later patch wins on every field both name: spreading `p` then `q`
      equals spreading their merge once. */
  function Merge(p: UserPatch, q: UserPatch): UserPatch
  {
    UserPatch(
      if q.id.Some? then q.id else p.id,
      if q.name.Some? then q.name else p.name,
      if q.streak.Some? then q.streak else p.streak,
      if q.badges.Some? then q.badges else p.badges,
      if q.prefersDarkMode.Some? then q.prefersDarkMode else p.prefersDarkMode)
  }

  /** An empty update changes nothing. */
  lemma NoChangesIsIdentity(u: User)
    ensures Apply(u, NoChanges) == u
  {
  }

  /** Applying the same update twice is applying it once. */
  lemma ApplyIdempotent(u: User, p: UserPatch)
    ensures Apply(Apply(u, p), p) == Apply(u, p)
  {
  }

  /** Two updates in a row are one update with the later values winning. */
  lemma ApplyThenApply(u: User, p: UserPatch, q: UserPatch)
    ensures Apply(Apply(u, p), q) == Apply(u, Merge(p, q))
  {
  }

  /** The user as `clearUserData` leaves it: same id, name and theme, streak
      back to 0 and the initial badges. */
  function Cleared(u: User): (r: User)
    ensures r.id == u.id && r.name == u.name && r.prefersDarkMode == u.prefersDarkMode
    ensures r.streak == 0 && r.badges == InitialBadges
  {
    u.(streak := 0, badges := InitialBadges)
  }

  /** Clearing is an update of the streak and the badges only. */
  lemma ClearedIsAnUpdate(u: User)
    ensures Cleared(u) == Apply(u, UserPatch(None, None, Some(0), Some(InitialBadges), None))
  {
  }

  /** A freshly logged-in user is already cleared. */
  lemma NewUserIsCleared(id: string, name: string)
    ensures Cleared(NewUser(id, name)) == NewUser(id, name)
  {
  }

  class Session {
    var user: Option<User>
    var isGuest: bool
    const storage: LocalStorage

    /** The stored copies agree with the state: `snugUser` holds the signed-in
        user, and `snugGuest` is "true" exactly in guest mode. */
    predicate Mirrored()
      reads this, storage
    {
      && (user.Some? ==> SnugUserKey in storage.items && storage.items[SnugUserKey] == UserBlob(user.value))
      && (isGuest <==> SnugGuestKey in storage.items && storage.items[SnugGuestKey] == Text("true"))
    }

    /** The provider on mount: nobody signed in, not a guest. */
    constructor (storage: LocalStorage)
      ensures user.None? && !isGuest && this.storage == storage
    {
      user := None;
      isGuest := false;
      this.storage := storage;
    }

    /** `login(name)`; `id` is the fresh id the source generates. */
    method Login(name: string, id: string)
      modifies this`user, this`isGuest, storage
      ensures user == Some(NewUser(id, name)) && !isGuest
      ensures storage.items == old(storage.items)[SnugUserKey := UserBlob(NewUser(id, name))] - {SnugGuestKey}
      ensures Mirrored()
    {
      var newUser := NewUser(id, name);
      user := Some(newUser);
      isGuest := false;
      storage.SetItem(SnugUserKey, UserBlob(newUser));
      storage.RemoveItem(SnugGuestKey);
    }

    /** `continueAsGuest`: the user, signed in or not, stays as it is. */
    method ContinueAsGuest()
      modifies this`isGuest, storage
      ensures isGuest && user == old(user)
      ensures storage.items == old(storage.items)[SnugGuestKey := Text("true")]
      ensures old(Mirrored()) ==> Mirrored()
    {
      isGuest := true;
      storage.SetItem(SnugGuestKey, Text("true"));
    }

    /** `logout`. */
    method Logout()
      modifies this`user, this`isGuest, storage
      ensures user.None? && !isGuest
      ensures storage.items == old(storage.items) - {SnugUserKey} - {SnugGuestKey}
      ensures Mirrored()
    {
      user := None;
      isGuest := false;
      storage.RemoveItem(SnugUserKey);
      storage.RemoveItem(SnugGuestKey);
    }

    /** `updateUser(updates)`: nothing happens without a signed-in user. */
    method UpdateUser(patch: UserPatch)
      modifies this`user, storage
      ensures old(user).None? ==> user.None? && storage.items == old(storage.items)
      ensures old(user).Some? ==>
        && user == Some(Apply(old(user).value, patch))
        && storage.items == old(storage.items)[SnugUserKey := UserBlob(user.value)]
      ensures old(Mirrored()) ==> Mirrored()
    {
      if user.None? {
        return;
      }
      var updated := Apply(user.value, patch);
      user := Some(updated);
      storage.SetItem(SnugUserKey, UserBlob(updated));
    }

    /** `clearUserData`: resets a signed-in user's progress and, signed in or
        not, drops the saved check-ins. The in-memory check-in list of the mood
        provider is not touched. */
    method ClearUserData()
      modifies this`user, storage
      ensures old(user).None? ==> user.None? && storage.items == old(storage.items) - {MoodEntriesKey}
      ensures old(user).Some? ==>
        && user == Some(Cleared(old(user).value))
        && storage.items == old(storage.items)[SnugUserKey := UserBlob(user.value)] - {MoodEntriesKey}
      ensures old(Mirrored()) ==> Mirrored()
    {
      if user.Some? {
        var cleared := Cleared(user.value);
        user := Some(cleared);
        storage.SetItem(SnugUserKey, UserBlob(cleared));
      }
      storage.RemoveItem(MoodEntriesKey);
    }
  }
}
