/**
 * The dashboard's permission check (which role the signed-in user has in
 * the selected store, and whether that role may edit) and its reading of a
 * story's metadata version.
 */
module Dashboard {
  import opened Wrappers

  /** A row of the user's store-role view: the store and the user's role
      there (`None` when the role property is null or missing). */
  datatype StoreOption = StoreOption(storeId: string, role: Option<string>)

  /** Role given when the selected store is not among the user's options. */
  const ViewerRole := "viewer"

  /** `j` is the first option whose `storeId` is `storeId`. */
  ghost predicate IsFirstMatch(options: seq<StoreOption>, storeId: string, j: int) {
    && 0 <= j < |options|
    && options[j].storeId == storeId
    && forall k :: 0 <= k < j ==> options[k].storeId != storeId
  }

  /** `Array.prototype.find` from position `from` on, returning the index of
      the element found. */
  function FindFrom(options: seq<StoreOption>, storeId: string, from: nat): (r: Option<nat>)
    requires from <= |options|
    ensures r.None? <==> forall j :: from <= j < |options| ==> options[j].storeId != storeId
    ensures r.Some? ==>
      && from <= r.value < |options|
      && options[r.value].storeId == storeId
      && forall j :: from <= j < r.value ==> options[j].storeId != storeId
    decreases |options| - from
  {
    if from == |options| then None
    else if options[from].storeId == storeId then Some(from)
    else FindFrom(options, storeId, from + 1)
  }

  /** `storeOptions.find(s => s.store_id === storeId)?.role ?? "viewer"`:
      the role of the first option for the selected store, or "viewer" when
      there is none or its role is missing. */
  function MyRole(options: seq<StoreOption>, storeId: string): (role: string)
    ensures (forall j :: 0 <= j < |options| ==> options[j].storeId != storeId) ==> role == ViewerRole
    ensures forall j :: IsFirstMatch(options, storeId, j) ==> role == options[j].role.GetOr(ViewerRole)
  {
    match FindFrom(options, storeId, 0)
    case None => ViewerRole
    case Some(j) => options[j].role.GetOr(ViewerRole)
  }

  /** Roles allowed to edit. */
  predicate IsEditorRole(role: string): (b: bool)
    ensures b ==> role != ViewerRole
  {
    role == "admin" || role == "editor"
  }

  /** `canEdit`: the user's role in the selected store is admin or editor. */
  function CanEdit(options: seq<StoreOption>, storeId: string): (b: bool)
    ensures b ==> exists j :: 0 <= j < |options| && options[j].storeId == storeId
  {
    IsEditorRole(MyRole(options, storeId))
  }

  /** Editing is allowed exactly when the first option for the selected
      store carries the role "admin" or "editor". */
  lemma CanEditIff(options: seq<StoreOption>, storeId: string)
    ensures CanEdit(options, storeId) <==>
      exists j :: IsFirstMatch(options, storeId, j) &&
        (options[j].role == Some("admin") || options[j].role == Some("editor"))
  {
    match FindFrom(options, storeId, 0)
    case None =>
    case Some(j) =>
      assert IsFirstMatch(options, storeId, j);
  }

  /** A store the user has no option for (an unknown store, or the empty
      selection when no option has an empty id) cannot be edited. */
  lemma UnknownStoreCannotEdit(options: seq<StoreOption>, storeId: string)
    requires forall j :: 0 <= j < |options| ==> options[j].storeId != storeId
    ensures MyRole(options, storeId) == ViewerRole
    ensures !CanEdit(options, storeId)
  {
  }

  /** A story's metadata record, whose `version` may be null or missing. */
  datatype StoryMeta = StoryMeta(version: Option<int>)

  /** `meta?.version ?? 0`: the version when both the record and its
      version are present, else 0; so 0 is read both for an absent version
      and for an explicit version 0. */
  function StoryMetaVersion(meta: Option<StoryMeta>): (version: int)
    ensures meta.Some? && meta.value.version.Some? ==> version == meta.value.version.value
    ensures version == 0 <==>
      meta.None? || meta.value.version.None? || meta.value.version.value == 0
  {
    match meta
    case None => 0
    case Some(m) => m.version.GetOr(0)
  }
}
