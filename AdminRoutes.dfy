/**
 * The route group for user management.  It is nested in the `auth` and
 * `verified` group and adds `auth` and `isAdmin` of its own: no session is
 * sent to the login page, a caller who is not an administrator gets 403,
 * anyone else reaches the user directory's handler.  `verified` is not
 * modelled: the caller is taken to have a verified email.
 */
module AdminRoutes {
  import opened Nullable
  import opened Schema
  import IsAdmin
  import UserController

  datatype Access = Granted | LoginRedirect | Denied

  datatype Reply<T> = Served(body: T) | RedirectToLogin | Forbidden

  function Admit(caller: Option<User>): (a: Access)
    ensures a == Granted <==> caller.Some? && caller.value.userType == Some(AdminUser)
    ensures a == LoginRedirect <==> caller.None?
  {
    if caller.None? then LoginRedirect
    else if IsAdmin.Handle(caller) == IsAdmin.Forward then Granted
    else Denied
  }

  /** The reply of a request the middleware stopped. */
  function Refusal<T>(a: Access): Reply<T>
    requires a != Granted
  {
    if a == LoginRedirect then RedirectToLogin else Forbidden
  }

  /** GET /users */
  method ListUsers(db: Database, caller: Option<User>) returns (r: Reply<seq<User>>)
    ensures Admit(caller) == Granted ==> r == Served(db.users)
    ensures Admit(caller) != Granted ==> r == Refusal(Admit(caller))
  {
    var a := Admit(caller);
    if a != Granted {
      return Refusal(a);
    }
    var users := UserController.Index(db);
    r := Served(users);
  }

  /** PUT /users/{id} */
  method UpdateUser(db: Database, caller: Option<User>, id: nat, f: UserController.UserForm,
                    emailWellFormed: bool) returns (r: Reply<Outcome>)
    requires db.Valid()
    modifies db
    ensures db.Valid()
    ensures Admit(caller) != Granted ==> r == Refusal(Admit(caller)) && db.Contents() == old(db.Contents())
    ensures Admit(caller) == Granted ==>
              r.Served? && UserController.UpdateSpec(old(db.Contents()), db.Contents(), id, f, emailWellFormed, r.body)
  {
    var a := Admit(caller);
    if a != Granted {
      return Refusal(a);
    }
    var o := UserController.Update(db, id, f, emailWellFormed);
    r := Served(o);
  }

  /** DELETE /users/{id} */
  method DestroyUser(db: Database, caller: Option<User>, id: nat) returns (r: Reply<Outcome>)
    requires db.Valid()
    modifies db
    ensures db.Valid()
    ensures Admit(caller) != Granted ==> r == Refusal(Admit(caller)) && db.Contents() == old(db.Contents())
    ensures Admit(caller) == Granted ==>
              r.Served? && UserController.DestroySpec(old(db.Contents()), db.Contents(), id, r.body)
  {
    var a := Admit(caller);
    if a != Granted {
      return Refusal(a);
    }
    var o := UserController.Destroy(db, id);
    r := Served(o);
  }
}
