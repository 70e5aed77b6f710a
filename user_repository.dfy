/** `UserRepository.update` (app/db_models.py): the partial update of an
    `app_users` row. The table is a map from user id to user. */
module UserRepository {
  import opened Wrappers
  import opened Models
  import opened PartialUpdate

  /** One `column = value` item of the `SET` list. */
  datatype UserAssignment =
    | SetEmail(email: string)
    | SetFullName(fullName: string)
    | SetIsAdmin(isAdmin: bool)
    | SetStatus(status: AppUserStatus)

  function AssignUser(u: AppUser, a: UserAssignment): AppUser
  {
    match a
    case SetEmail(e) => u.(email := e)
    case SetFullName(n) => u.(fullName := n)
    case SetIsAdmin(b) => u.(isAdmin := b)
    case SetStatus(s) => u.(status := s)
  }

  predicate UserUpdateIsEmpty(u: AppUserUpdate)
  {
    u == AppUserUpdate(None, None, None, None)
  }

  /** The user an update describes: every given field replaces the stored
      one, every absent field is kept; the id and the Firebase uid never
      change. */
  function MergeUser(user: AppUser, u: AppUserUpdate): (r: AppUser)
    ensures r.id == user.id && r.firebaseUid == user.firebaseUid
    ensures UserUpdateIsEmpty(u) ==> r == user
    ensures r.email == (if u.email.Some? then u.email.value else user.email)
    ensures r.fullName == (if u.fullName.Some? then u.fullName.value else user.fullName)
    ensures r.isAdmin == (if u.isAdmin.Some? then u.isAdmin.value else user.isAdmin)
    ensures r.status == (if u.status.Some? then u.status.value else user.status)
  {
    user.(email := u.email.GetOr(user.email),
          fullName := u.fullName.GetOr(user.fullName),
          isAdmin := u.isAdmin.GetOr(user.isAdmin),
          status := u.status.GetOr(user.status))
  }

  /** Applying the same update twice writes nothing new. */
  lemma MergeUserIdempotent(user: AppUser, u: AppUserUpdate)
    ensures MergeUser(MergeUser(user, u), u) == MergeUser(user, u)
  {
  }

  /** `updates` writes the fields `given` gives. */
  ghost predicate WritesUser(updates: seq<UserAssignment>, given: AppUserUpdate)
  {
    forall user :: ApplyAll(user, updates, AssignUser) == MergeUser(user, given)
  }

  /** Appending the assignment `a` writes one more field. */
  lemma UserStep(updates: seq<UserAssignment>, given: AppUserUpdate, a: UserAssignment, given': AppUserUpdate)
    requires WritesUser(updates, given)
    requires forall user :: MergeUser(user, given') == AssignUser(MergeUser(user, given), a)
    ensures WritesUser(updates + [a], given')
  {
    forall user ensures ApplyAll(user, updates + [a], AssignUser) == MergeUser(user, given') {
      ApplyAllAppend(user, updates, a, AssignUser);
    }
  }

  /** The `SET` list `update` builds: one item per given field, in column
      order, and no item at all for an empty update. */
  method UserSetList(u: AppUserUpdate) returns (updates: seq<UserAssignment>)
    ensures updates == [] <==> UserUpdateIsEmpty(u)
    ensures |updates| <= 4
    ensures forall user :: ApplyAll(user, updates, AssignUser) == MergeUser(user, u)
  {
    updates := [];
    ghost var given := AppUserUpdate(None, None, None, None);
    if u.email.Some? {
      var a := SetEmail(u.email.value);
      UserStep(updates, given, a, given.(email := u.email));
      updates := updates + [a];
    }
    given := given.(email := u.email);
    if u.fullName.Some? {
      var a := SetFullName(u.fullName.value);
      UserStep(updates, given, a, given.(fullName := u.fullName));
      updates := updates + [a];
    }
    given := given.(fullName := u.fullName);
    if u.isAdmin.Some? {
      var a := SetIsAdmin(u.isAdmin.value);
      UserStep(updates, given, a, given.(isAdmin := u.isAdmin));
      updates := updates + [a];
    }
    given := given.(isAdmin := u.isAdmin);
    if u.status.Some? {
      var a := SetStatus(u.status.value);
      UserStep(updates, given, a, given.(status := u.status));
      updates := updates + [a];
    }
    given := given.(status := u.status);
    assert given == u;
  }

  /** The `app_users` table after an update: only row `id` may change, and
      it changes only when the update gives a field. */
  function UpdatedUsers(rows: map<int, AppUser>, id: int, u: AppUserUpdate): (r: map<int, AppUser>)
    ensures r.Keys == rows.Keys
    ensures forall k :: k in rows && k != id ==> r[k] == rows[k]
    ensures id in rows ==> r[id] == MergeUser(rows[id], u)
  {
    if id in rows && !UserUpdateIsEmpty(u) then rows[id := MergeUser(rows[id], u)] else rows
  }

  /** Updating twice with the same request is the same as updating once. */
  lemma UpdatedUsersIdempotent(rows: map<int, AppUser>, id: int, u: AppUserUpdate)
    ensures UpdatedUsers(UpdatedUsers(rows, id, u), id, u) == UpdatedUsers(rows, id, u)
  {
    if id in rows {
      MergeUserIdempotent(rows[id], u);
    }
  }

  /** The `app_users` table, keyed by user id. */
  class UserTable {
    var rows: map<int, AppUser>

    constructor (rows: map<int, AppUser>)
      ensures this.rows == rows
    {
      this.rows := rows;
    }

    /** `update`: with no field given it returns `find_by_id(id)`; otherwise
        it writes the given fields and returns the row as stored, or `None`
        when there is no user `id`. */
    method Update(id: int, u: AppUserUpdate) returns (r: Option<AppUser>)
      modifies this
      ensures rows == UpdatedUsers(old(rows), id, u)
      ensures r == if id in rows then Some(rows[id]) else None
    {
      var updates := UserSetList(u);
      if updates == [] {
        r := if id in rows then Some(rows[id]) else None;
        return;
      }
      if id in rows {
        rows := rows[id := ApplyAll(rows[id], updates, AssignUser)];
        r := Some(rows[id]);
      } else {
        r := None;
      }
    }
  }
}
