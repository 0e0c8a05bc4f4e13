/**
 * The app's database as one in-memory store: the System and UserProfile tables, the
 * two append-only logs, and the user table they refer to. Saving or deleting a record
 * calls the matching change observer as its last step, inside the same unit of work:
 * if the observer cannot create its row, the whole operation fails and leaves the
 * store as it was.
 */
module Store {
  import opened Models
  import opened Trail
  import opened Signals

  /** Why a database write is refused. */
  datatype Error =
    | NullActor         // a ChangeLog row with a null user (the column is not nullable)
    | DuplicateProfile  // a second profile for one user (the reference is one-to-one)

  datatype Result<T> = Ok(value: T) | Err(error: Error)

  // Field projections used to state the log invariants generically.
  function AccessId(e: AccessLog): nat { e.id }
  function AccessStamp(e: AccessLog): nat { e.timestamp }
  function AccessActor(e: AccessLog): Option<UserId> { e.user }
  function ChangeId(e: ChangeLog): nat { e.id }
  function ChangeStamp(e: ChangeLog): nat { e.timestamp }
  function ChangeActor(e: ChangeLog): Option<UserId> { Some(e.user) }

  /**
   * The System table after user `u` is deleted: every reference to `u` in
   * `lastModifiedBy` is set to null, and nothing else changes.
   */
  function SetNullOnDelete(systems: map<nat, System>, u: UserId): (r: map<nat, System>)
    ensures r.Keys == systems.Keys
    ensures forall k :: k in r ==>
      && r[k].id == systems[k].id
      && r[k].name == systems[k].name
      && r[k].description == systems[k].description
      && r[k].lastModifiedBy == (if systems[k].lastModifiedBy == Some(u) then None else systems[k].lastModifiedBy)
  {
    map k | k in systems ::
      if systems[k].lastModifiedBy == Some(u) then systems[k].(lastModifiedBy := None) else systems[k]
  }

  /** The UserProfile table after user `u` is deleted: `u`'s profile is removed with them. */
  function CascadeOnDelete(profiles: map<nat, UserProfile>, u: UserId): (r: map<nat, UserProfile>)
    ensures forall k :: k in r <==> k in profiles && profiles[k].user != u
    ensures forall k :: k in r ==> r[k] == profiles[k]
  {
    map k | k in profiles && profiles[k].user != u :: profiles[k]
  }

  /**
   * A system last modified by a deleted user keeps a null `lastModifiedBy`, so a
   * delete of that system before it is saved again with a last modifier has no
   * row its observer can create, and fails.
   */
  lemma OrphanedSystemDeletionFails(systems: map<nat, System>, u: UserId, k: nat)
    requires k in systems && systems[k].lastModifiedBy == Some(u)
    ensures k in SetNullOnDelete(systems, u)
    ensures SystemDeletion(SetNullOnDelete(systems, u)[k]).None?
  {
  }

  // ---------------------------------------------------------------------------
  // Integrity of the tables, stated on their values
  // ---------------------------------------------------------------------------

  /** A nullable user reference that is null or names an existing user. */
  ghost predicate KnownUser(users: map<UserId, string>, u: Option<UserId>) {
    u.Some? ==> u.value in users
  }

  /** Systems are keyed by their ids and refer to existing users only. */
  ghost predicate SystemsOk(systems: map<nat, System>, nextId: nat, users: map<UserId, string>) {
    forall k :: k in systems ==> systems[k].id == k && k < nextId && KnownUser(users, systems[k].lastModifiedBy)
  }

  /** Profiles are keyed by their ids, belong to existing users, at most one per user. */
  ghost predicate ProfilesOk(profiles: map<nat, UserProfile>, nextId: nat, users: map<UserId, string>) {
    && (forall k :: k in profiles ==> profiles[k].id == k && k < nextId && profiles[k].user in users)
    && (forall k, k' :: k in profiles && k' in profiles && profiles[k].user == profiles[k'].user ==> k == k')
  }

  /** Access events refer to existing users or to none, and are in creation order. */
  ghost predicate AccessOk(log: seq<AccessLog>, nextId: nat, clock: nat, users: map<UserId, string>) {
    && (forall e :: e in log ==> KnownUser(users, e.user))
    && Chronological(log, AccessId, AccessStamp, nextId, clock)
  }

  /** Change events refer to existing users and are in creation order. */
  ghost predicate ChangesOk(log: seq<ChangeLog>, nextId: nat, clock: nat, users: map<UserId, string>) {
    && (forall e :: e in log ==> e.user in users)
    && Chronological(log, ChangeId, ChangeStamp, nextId, clock)
  }

  /** The SET_NULL rule keeps the System table's integrity. */
  lemma SetNullKeepsSystemsOk(systems: map<nat, System>, nextId: nat, users: map<UserId, string>, u: UserId)
    requires SystemsOk(systems, nextId, users)
    ensures SystemsOk(SetNullOnDelete(systems, u), nextId, users)
  {
  }

  /** The CASCADE rule keeps the UserProfile table's integrity. */
  lemma CascadeKeepsProfilesOk(profiles: map<nat, UserProfile>, nextId: nat, users: map<UserId, string>, u: UserId)
    requires ProfilesOk(profiles, nextId, users)
    ensures ProfilesOk(CascadeOnDelete(profiles, u), nextId, users)
  {
  }

  /** The CASCADE rule keeps the access log's integrity and creation order. */
  lemma CascadeKeepsAccessOk(log: seq<AccessLog>, nextId: nat, clock: nat, users: map<UserId, string>, u: UserId)
    requires AccessOk(log, nextId, clock, users)
    ensures AccessOk(Without(log, AccessActor, u), nextId, clock, users)
  {
    WithoutMembers(log, AccessActor, u);
    WithoutChronological(log, AccessActor, u, AccessId, AccessStamp, nextId, clock);
  }

  /** The CASCADE rule keeps the change log's integrity and creation order. */
  lemma CascadeKeepsChangesOk(log: seq<ChangeLog>, nextId: nat, clock: nat, users: map<UserId, string>, u: UserId)
    requires ChangesOk(log, nextId, clock, users)
    ensures ChangesOk(Without(log, ChangeActor, u), nextId, clock, users)
  {
    WithoutMembers(log, ChangeActor, u);
    WithoutChronological(log, ChangeActor, u, ChangeId, ChangeStamp, nextId, clock);
  }

  /** No row of any table refers to user `u`. */
  ghost predicate Unreferenced(
    u: UserId, systems: map<nat, System>, profiles: map<nat, UserProfile>,
    accessLog: seq<AccessLog>, changeLog: seq<ChangeLog>)
  {
    && (forall k :: k in systems ==> systems[k].lastModifiedBy != Some(u))
    && (forall k :: k in profiles ==> profiles[k].user != u)
    && (forall e :: e in accessLog ==> e.user != Some(u))
    && (forall e :: e in changeLog ==> e.user != u)
  }

  /**
   * The store's invariant on the values of its tables and counters: rows are keyed
   * by their ids, every user reference names an existing user, a user has at most
   * one profile, and both logs are in creation order.
   */
  ghost predicate StoreOk(
    users: map<UserId, string>, nextUserId: nat,
    systems: map<nat, System>, nextSystemId: nat,
    profiles: map<nat, UserProfile>, nextProfileId: nat,
    accessLog: seq<AccessLog>, nextAccessId: nat,
    changeLog: seq<ChangeLog>, nextChangeId: nat, clock: nat)
  {
    && (forall u :: u in users ==> u < nextUserId)
    && SystemsOk(systems, nextSystemId, users)
    && ProfilesOk(profiles, nextProfileId, users)
    && AccessOk(accessLog, nextAccessId, clock, users)
    && ChangesOk(changeLog, nextChangeId, clock, users)
  }

  /**
   * After the delete rules for user `u` have run, no row refers to `u`: the
   * SET_NULL rule cleared every `lastModifiedBy` that named them and the CASCADE
   * rule removed their profile and their log rows.
   */
  lemma DeleteRulesUnreference(
    systems: map<nat, System>, profiles: map<nat, UserProfile>,
    accessLog: seq<AccessLog>, changeLog: seq<ChangeLog>, u: UserId)
    ensures Unreferenced(u, SetNullOnDelete(systems, u), CascadeOnDelete(profiles, u),
      Without(accessLog, AccessActor, u), Without(changeLog, ChangeActor, u))
  {
    WithoutMembers(accessLog, AccessActor, u);
    WithoutMembers(changeLog, ChangeActor, u);
  }

  /** A user that no row refers to can be removed without breaking the invariant. */
  lemma DropUnreferencedUser(
    users: map<UserId, string>, nextUserId: nat,
    systems: map<nat, System>, nextSystemId: nat,
    profiles: map<nat, UserProfile>, nextProfileId: nat,
    accessLog: seq<AccessLog>, nextAccessId: nat,
    changeLog: seq<ChangeLog>, nextChangeId: nat, clock: nat, u: UserId)
    requires StoreOk(users, nextUserId, systems, nextSystemId, profiles, nextProfileId,
      accessLog, nextAccessId, changeLog, nextChangeId, clock)
    requires Unreferenced(u, systems, profiles, accessLog, changeLog)
    ensures StoreOk(users - {u}, nextUserId, systems, nextSystemId, profiles, nextProfileId,
      accessLog, nextAccessId, changeLog, nextChangeId, clock)
  {
  }

  class AuditStore {
    var users: map<UserId, string>  // the framework's user table: id to username
    var systems: map<nat, System>
    var profiles: map<nat, UserProfile>
    var accessLog: seq<AccessLog>
    var changeLog: seq<ChangeLog>
    var nextUserId: nat
    var nextSystemId: nat
    var nextProfileId: nat
    var nextAccessId: nat
    var nextChangeId: nat
    var clock: nat  // the logical clock that stamps new log rows

    /**
     * The store's invariant: rows are keyed by their ids, every user reference names
     * an existing user, a user has at most one profile, and both logs are in
     * creation order.
     */
    ghost predicate Valid()
      reads this
    {
      StoreOk(users, nextUserId, systems, nextSystemId, profiles, nextProfileId,
        accessLog, nextAccessId, changeLog, nextChangeId, clock)
    }

    constructor ()
      ensures Valid()
      ensures users == map[] && systems == map[] && profiles == map[]
      ensures accessLog == [] && changeLog == []
    {
      users, systems, profiles := map[], map[], map[];
      accessLog, changeLog := [], [];
      nextUserId, nextSystemId, nextProfileId, nextAccessId, nextChangeId := 1, 1, 1, 1, 1;
      clock := 0;
    }

    /** Time passes: rows created from now on carry a later timestamp. */
    method Tick()
      requires Valid()
      modifies this`clock
      ensures Valid() && clock == old(clock) + 1
    {
      clock := clock + 1;
    }

    /** A user account is created (by the framework's authentication app). */
    method AddUser(username: string) returns (u: UserId)
      requires Valid()
      modifies this`users, this`nextUserId
      ensures Valid()
      ensures u !in old(users) && users == old(users)[u := username]
    {
      u := nextUserId;
      users := users[u := username];
      nextUserId := nextUserId + 1;
    }

    // -------------------------------------------------------------------------
    // The two log tables' create operations
    // -------------------------------------------------------------------------

    /** Creates one AccessLog row, stamped with the current clock. */
    method CreateAccessLog(f: AccessFields) returns (entry: AccessLog)
      requires Valid() && KnownUser(users, f.user)
      modifies this`accessLog, this`nextAccessId
      ensures Valid()
      ensures entry == NewAccessLog(f, old(nextAccessId), clock)
      ensures accessLog == old(accessLog) + [entry] && nextAccessId == old(nextAccessId) + 1
    {
      entry := NewAccessLog(f, nextAccessId, clock);
      AppendChronological(accessLog, entry, AccessId, AccessStamp, nextAccessId, clock);
      accessLog := accessLog + [entry];
      nextAccessId := nextAccessId + 1;
    }

    /** Creates one ChangeLog row, stamped with the current clock. */
    method CreateChangeLog(f: ChangeFields) returns (entry: ChangeLog)
      requires Valid() && f.user in users
      modifies this`changeLog, this`nextChangeId
      ensures Valid()
      ensures entry == NewChangeLog(f, old(nextChangeId), clock)
      ensures changeLog == old(changeLog) + [entry] && nextChangeId == old(nextChangeId) + 1
    {
      entry := NewChangeLog(f, nextChangeId, clock);
      AppendChronological(changeLog, entry, ChangeId, ChangeStamp, nextChangeId, clock);
      changeLog := changeLog + [entry];
      nextChangeId := nextChangeId + 1;
    }

    // -------------------------------------------------------------------------
    // The change observers
    // -------------------------------------------------------------------------

    /** Observer of a System save: appends the row `SystemChange` describes, or fails. */
    method LogSystemChange(instance: System, created: bool) returns (res: Result<ChangeLog>)
      requires Valid() && KnownUser(users, instance.lastModifiedBy)
      modifies this`changeLog, this`nextChangeId
      ensures Valid()
      ensures SystemChange(instance, created).None? ==>
        res == Err(NullActor) && changeLog == old(changeLog) && nextChangeId == old(nextChangeId)
      ensures SystemChange(instance, created).Some? ==>
        && res == Ok(NewChangeLog(SystemChange(instance, created).value, old(nextChangeId), clock))
        && changeLog == old(changeLog) + [res.value]
        && nextChangeId == old(nextChangeId) + 1
    {
      match SystemChange(instance, created)
      case None =>
        res := Err(NullActor);
      case Some(f) =>
        var entry := CreateChangeLog(f);
        res := Ok(entry);
    }

    /** Observer of a System delete: appends the row `SystemDeletion` describes, or fails. */
    method LogSystemDeletion(instance: System) returns (res: Result<ChangeLog>)
      requires Valid() && KnownUser(users, instance.lastModifiedBy)
      modifies this`changeLog, this`nextChangeId
      ensures Valid()
      ensures SystemDeletion(instance).None? ==>
        res == Err(NullActor) && changeLog == old(changeLog) && nextChangeId == old(nextChangeId)
      ensures SystemDeletion(instance).Some? ==>
        && res == Ok(NewChangeLog(SystemDeletion(instance).value, old(nextChangeId), clock))
        && changeLog == old(changeLog) + [res.value]
        && nextChangeId == old(nextChangeId) + 1
    {
      match SystemDeletion(instance)
      case None =>
        res := Err(NullActor);
      case Some(f) =>
        var entry := CreateChangeLog(f);
        res := Ok(entry);
    }

    /** Observer of a UserProfile save: always appends the row `ProfileChange` describes. */
    method LogUserProfileChange(instance: UserProfile, created: bool) returns (entry: ChangeLog)
      requires Valid() && instance.user in users
      modifies this`changeLog, this`nextChangeId
      ensures Valid()
      ensures entry == NewChangeLog(ProfileChange(instance, users[instance.user], created), old(nextChangeId), clock)
      ensures changeLog == old(changeLog) + [entry] && nextChangeId == old(nextChangeId) + 1
    {
      entry := CreateChangeLog(ProfileChange(instance, users[instance.user], created));
    }

    // -------------------------------------------------------------------------
    // Saving and deleting records
    // -------------------------------------------------------------------------

    /**
     * Writes a System row: inserted when its key is new, replaced otherwise. Keys
     * handed out later stay above every key in use.
     */
    method PutSystem(instance: System)
      requires Valid() && KnownUser(users, instance.lastModifiedBy)
      modifies this`systems, this`nextSystemId
      ensures Valid()
      ensures systems == old(systems)[instance.id := instance]
      ensures old(nextSystemId) <= nextSystemId
    {
      systems := systems[instance.id := instance];
      if nextSystemId <= instance.id {
        nextSystemId := instance.id + 1;
      }
    }

    /**
     * Saves a System. A record without a primary key, or whose key is not in the
     * table, is inserted (under a fresh key when it has none); otherwise the row is
     * updated. The save observer then runs with `created` set accordingly.
     */
    method SaveSystem(pk: Option<nat>, name: string, description: string, lastModifiedBy: Option<UserId>)
      returns (res: Result<System>)
      requires Valid() && KnownUser(users, lastModifiedBy)
      modifies this`systems, this`nextSystemId, this`changeLog, this`nextChangeId
      ensures Valid()
      ensures res.Err? <==> lastModifiedBy.None?
      ensures res.Err? ==>
        && res.error == NullActor
        && systems == old(systems) && nextSystemId == old(nextSystemId)
        && changeLog == old(changeLog) && nextChangeId == old(nextChangeId)
      ensures res.Ok? ==>
        var s := res.value;
        && s == System(s.id, name, description, lastModifiedBy)
        && (pk.Some? ==> s.id == pk.value)
        && (pk.None? ==> s.id !in old(systems))
        && systems == old(systems)[s.id := s]
        && changeLog == old(changeLog) + [NewChangeLog(SystemChange(s, s.id !in old(systems)).value, old(nextChangeId), clock)]
    {
      var created := pk.None? || pk.value !in systems;
      var id := if pk.Some? then pk.value else nextSystemId;
      var instance := System(id, name, description, lastModifiedBy);
      if SystemChange(instance, created).None? {
        // The observer's insert is refused after the row write, and the unit of
        // work rolls back to the state it started from.
        return Err(NullActor);
      }
      PutSystem(instance);
      var logged := LogSystemChange(instance, created);
      res := Ok(instance);
    }

    /**
     * Deletes a stored System. The delete observer runs with the deleted record, so
     * the row it appends is attributed to the record's stored `lastModifiedBy`.
     */
    method DeleteSystem(id: nat) returns (res: Result<System>)
      requires Valid() && id in systems
      modifies this`systems, this`changeLog, this`nextChangeId
      ensures Valid()
      ensures res.Err? <==> old(systems)[id].lastModifiedBy.None?
      ensures res.Err? ==>
        && res.error == NullActor
        && systems == old(systems) && changeLog == old(changeLog) && nextChangeId == old(nextChangeId)
      ensures res.Ok? ==>
        && res.value == old(systems)[id]
        && systems == old(systems) - {id}
        && changeLog == old(changeLog) + [NewChangeLog(SystemDeletion(res.value).value, old(nextChangeId), clock)]
    {
      var instance := systems[id];
      if SystemDeletion(instance).None? {
        // The observer's insert is refused after the row delete, and the unit of
        // work rolls back to the state it started from.
        return Err(NullActor);
      }
      systems := systems - {id};
      var logged := LogSystemDeletion(instance);
      res := Ok(instance);
    }

    /**
     * Writes a UserProfile row for a user who has no other profile: inserted when
     * its key is new, replaced otherwise.
     */
    method PutProfile(instance: UserProfile)
      requires Valid() && instance.user in users
      requires forall k :: k in profiles && profiles[k].user == instance.user ==> k == instance.id
      modifies this`profiles, this`nextProfileId
      ensures Valid()
      ensures profiles == old(profiles)[instance.id := instance]
      ensures old(nextProfileId) <= nextProfileId
    {
      profiles := profiles[instance.id := instance];
      if nextProfileId <= instance.id {
        nextProfileId := instance.id + 1;
      }
    }

    /**
     * Saves a UserProfile, inserting or updating as `SaveSystem` does. A second
     * profile for the same user is refused by the one-to-one constraint before
     * anything is written; otherwise the profile save observer runs.
     */
    method SaveProfile(pk: Option<nat>, user: UserId, role: string, department: string)
      returns (res: Result<UserProfile>)
      requires Valid() && user in users
      modifies this`profiles, this`nextProfileId, this`changeLog, this`nextChangeId
      ensures Valid()
      ensures res.Err? <==>
        exists k :: k in old(profiles) && old(profiles)[k].user == user && (pk.None? || k != pk.value)
      ensures res.Err? ==>
        && res.error == DuplicateProfile
        && profiles == old(profiles) && nextProfileId == old(nextProfileId)
        && changeLog == old(changeLog) && nextChangeId == old(nextChangeId)
      ensures res.Ok? ==>
        var p := res.value;
        var created := p.id !in old(profiles);
        && p == UserProfile(p.id, user, role, department)
        && (pk.Some? ==> p.id == pk.value)
        && (pk.None? ==> p.id !in old(profiles))
        && profiles == old(profiles)[p.id := p]
        && changeLog == old(changeLog) + [NewChangeLog(ProfileChange(p, users[user], created), old(nextChangeId), clock)]
    {
      if exists k :: k in profiles && profiles[k].user == user && (pk.None? || k != pk.value) {
        res := Err(DuplicateProfile);
        return;
      }
      var created := pk.None? || pk.value !in profiles;
      var id := if pk.Some? then pk.value else nextProfileId;
      var instance := UserProfile(id, user, role, department);
      PutProfile(instance);
      var logged := LogUserProfileChange(instance, created);
      res := Ok(instance);
    }

    /** Deletes a UserProfile. No observer listens for this, so no log row is written. */
    method DeleteProfile(id: nat)
      requires Valid()
      modifies this`profiles
      ensures Valid()
      ensures profiles == old(profiles) - {id}
      ensures changeLog == old(changeLog)
    {
      profiles := profiles - {id};
    }

    /** The CASCADE rule on the two logs: the rows of user `u` are removed. */
    method CascadeLogs(u: UserId)
      requires Valid()
      modifies this`accessLog, this`changeLog
      ensures Valid()
      ensures accessLog == Without(old(accessLog), AccessActor, u)
      ensures changeLog == Without(old(changeLog), ChangeActor, u)
    {
      CascadeKeepsAccessOk(accessLog, nextAccessId, clock, users, u);
      CascadeKeepsChangesOk(changeLog, nextChangeId, clock, users, u);
      accessLog, changeLog := Without(accessLog, AccessActor, u), Without(changeLog, ChangeActor, u);
    }

    /** The SET_NULL rule on systems and the CASCADE rule on profiles for user `u`. */
    method ReleaseTables(u: UserId)
      requires Valid()
      modifies this`systems, this`profiles
      ensures Valid()
      ensures systems == SetNullOnDelete(old(systems), u)
      ensures profiles == CascadeOnDelete(old(profiles), u)
    {
      SetNullKeepsSystemsOk(systems, nextSystemId, users, u);
      CascadeKeepsProfilesOk(profiles, nextProfileId, users, u);
      systems, profiles := SetNullOnDelete(systems, u), CascadeOnDelete(profiles, u);
    }

    /** Removes the account of a user no row refers to any more. */
    method RemoveAccount(u: UserId)
      requires Valid() && Unreferenced(u, systems, profiles, accessLog, changeLog)
      modifies this`users
      ensures Valid()
      ensures users == old(users) - {u}
    {
      DropUnreferencedUser(users, nextUserId, systems, nextSystemId, profiles, nextProfileId,
        accessLog, nextAccessId, changeLog, nextChangeId, clock, u);
      users := users - {u};
    }

    /**
     * Deletes a user and applies each reference's delete rule: systems they last
     * modified keep their row with a null `lastModifiedBy`; their profile, their
     * access events and their change events are deleted with them. The rule that
     * nulls `lastModifiedBy` is a bulk update that does not go through a save, so no
     * observer runs and no row is appended to either log.
     */
    method DeleteUser(u: UserId)
      requires Valid()
      modifies this`users, this`systems, this`profiles, this`accessLog, this`changeLog
      ensures Valid()
      ensures users == old(users) - {u}
      ensures systems == SetNullOnDelete(old(systems), u)
      ensures profiles == CascadeOnDelete(old(profiles), u)
      ensures accessLog == Without(old(accessLog), AccessActor, u)
      ensures changeLog == Without(old(changeLog), ChangeActor, u)
    {
      CascadeLogs(u);
      ReleaseTables(u);
      DeleteRulesUnreference(old(systems), old(profiles), old(accessLog), old(changeLog), u);
      RemoveAccount(u);
    }
  }
}
