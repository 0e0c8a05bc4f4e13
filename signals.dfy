/**
 * The change observers: the ChangeLog row each one asks to create after a save or a
 * delete of a System or a UserProfile.
 */
module Signals {
  import opened Models

  const SYSTEM_MODEL: string := "System"
  const PROFILE_MODEL: string := "UserProfile"

  /** The change type of a save: CREATE when the save inserted the row, UPDATE otherwise. */
  function SaveAction(created: bool): (c: ChangeType)
    ensures c == Create <==> created
    ensures c != Delete
  {
    if created then Create else Update
  }

  /**
   * The row the System save observer creates. The row's user is the system's
   * `lastModifiedBy`; when that is null there is no valid row, since the user column
   * of a ChangeLog is not nullable.
   */
  function SystemChange(instance: System, created: bool): (r: Option<ChangeFields>)
    ensures r.None? <==> instance.lastModifiedBy.None?
    ensures r.Some? ==>
      && r.value.user == instance.lastModifiedBy.value
      && r.value.changeType == SaveAction(created)
      && r.value.modelName == "System"
      && r.value.recordId == instance.id
  {
    match instance.lastModifiedBy
    case None => None
    case Some(u) =>
      var action := SaveAction(created);
      Some(ChangeFields(u, action, SYSTEM_MODEL, instance.id,
        "System '" + instance.name + "' was " + PastTense(action) + ". Description: " + instance.description))
  }

  /**
   * The row the System delete observer creates, attributed to the deleted system's
   * `lastModifiedBy`; none when that is null.
   */
  function SystemDeletion(instance: System): (r: Option<ChangeFields>)
    ensures r.None? <==> instance.lastModifiedBy.None?
    ensures r.Some? ==>
      && r.value.user == instance.lastModifiedBy.value
      && r.value.changeType == Delete
      && r.value.modelName == "System"
      && r.value.recordId == instance.id
  {
    match instance.lastModifiedBy
    case None => None
    case Some(u) =>
      Some(ChangeFields(u, Delete, SYSTEM_MODEL, instance.id, "System '" + instance.name + "' was deleted"))
  }

  /**
   * The row the UserProfile save observer creates: attributed to the profile's own
   * user (whose username is `username`), never to whoever performed the save.
   */
  function ProfileChange(instance: UserProfile, username: string, created: bool): (r: ChangeFields)
    ensures r.user == instance.user
    ensures r.changeType == SaveAction(created)
    ensures r.modelName == "UserProfile"
    ensures r.recordId == instance.id
  {
    var action := SaveAction(created);
    ChangeFields(instance.user, action, PROFILE_MODEL, instance.id,
      "User profile for " + username + " was " + PastTense(action) + ". Role: " + instance.role
      + ", Department: " + instance.department)
  }

  /**
   * The text of a System save's row: the name, "created" or "updated", and the
   * description.
   */
  lemma SystemChangeText(instance: System, created: bool)
    requires instance.lastModifiedBy.Some?
    ensures SystemChange(instance, created).value.changeset
            == "System '" + instance.name + "' was " + (if created then "created" else "updated")
               + ". Description: " + instance.description
  {
  }

  /** The text of a System delete's row. */
  lemma SystemDeletionText(instance: System)
    requires instance.lastModifiedBy.Some?
    ensures SystemDeletion(instance).value.changeset == "System '" + instance.name + "' was deleted"
  {
  }

  /**
   * The text of a UserProfile save's row: the username, "created" or "updated", the
   * role and the department.
   */
  lemma ProfileChangeText(instance: UserProfile, username: string, created: bool)
    ensures ProfileChange(instance, username, created).changeset
            == "User profile for " + username + " was " + (if created then "created" else "updated")
               + ". Role: " + instance.role + ", Department: " + instance.department
  {
  }

  /**
   * The text of a System save's row tells a creation from an update: the two texts
   * for the same system differ.
   */
  lemma SystemChangesetTellsAction(instance: System)
    requires instance.lastModifiedBy.Some?
    ensures SystemChange(instance, true).value.changeset != SystemChange(instance, false).value.changeset
  {
    var at := |"System '" + instance.name + "' was "|;
    assert SystemChange(instance, true).value.changeset[at] == 'c';
    assert SystemChange(instance, false).value.changeset[at] == 'u';
  }
}
