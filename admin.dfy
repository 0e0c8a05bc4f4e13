/**
 * The admin site's System form: it records the requesting user as the system's
 * last modifier before saving, so the change observer attributes the row to them.
 */
module Admin {
  import opened Models
  import opened Signals
  import opened Store

  /**
   * Saves a System submitted through the admin form by `requester`: `pk` is the
   * edited row's key (absent on the add form), `name` and `description` are the
   * submitted values. Whatever the stored or submitted last modifier was, the
   * saved row names the requester, and so does the CREATE or UPDATE row logged for
   * the save, which therefore always succeeds.
   */
  method SaveModel(store: AuditStore, requester: UserId, pk: Option<nat>, name: string, description: string)
    returns (saved: System)
    requires store.Valid() && requester in store.users
    modifies store`systems, store`nextSystemId, store`changeLog, store`nextChangeId
    ensures store.Valid()
    ensures saved.name == name && saved.description == description
    ensures saved.lastModifiedBy == Some(requester)
    ensures pk.Some? ==> saved.id == pk.value
    ensures pk.None? ==> saved.id !in old(store.systems)
    ensures store.systems == old(store.systems)[saved.id := saved]
    ensures |store.changeLog| == |old(store.changeLog)| + 1
    ensures store.changeLog[..|old(store.changeLog)|] == old(store.changeLog)
    ensures var entry := store.changeLog[|old(store.changeLog)|];
      && entry.user == requester
      && entry.changeType == SaveAction(saved.id !in old(store.systems))
      && (pk.None? ==> entry.changeType == Create)
      && entry.modelName == "System"
      && entry.recordId == saved.id
  {
    var res := store.SaveSystem(pk, name, description, Some(requester));
    saved := res.value;
  }
}
