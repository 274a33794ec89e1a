/**
 * The user directory behind the administrator routes: list every user,
 * change some of a user's fields, delete a user.
 */
module UserController {
  import opened Nullable
  import opened Schema

  const MaxTag := 30

  /** One key of the edit request: not sent, sent without a value (NULL), or sent with a value. */
  datatype Field = Absent | Null | Given(value: string)

  datatype UserForm = UserForm(name: Field, email: Field, userType: Field, approveUser: Field)

  /** `nullable|string|max:n` */
  predicate FitsIn(x: Field, n: nat)
  {
    x.Given? ==> |x.value| <= n
  }

  /** `unique:users,email,id`: no user other than `id` holds `email`. */
  predicate EmailFree(users: seq<User>, id: nat, email: string)
  {
    forall j :: 0 <= j < |users| && users[j].id != id ==> users[j].email != email
  }

  /**
   * The edit form's rules; `emailWellFormed` is the framework's `email`
   * rule's verdict on the submitted email.  `userType` and `ApproveUser`
   * take any text of at most 30 characters.
   */
  predicate ValidUserForm(users: seq<User>, id: nat, f: UserForm, emailWellFormed: bool)
  {
    && FitsIn(f.name, MaxText)
    && FitsIn(f.email, MaxText)
    && (f.email.Given? ==> emailWellFormed && EmailFree(users, id, f.email.value))
    && FitsIn(f.userType, MaxTag)
    && FitsIn(f.approveUser, MaxTag)
  }

  /** A sent NULL for `name` or `email` reaches a NOT NULL column and the update fails. */
  predicate WritesNull(f: UserForm)
  {
    f.name.Null? || f.email.Null?
  }

  function Written(x: Field, current: Option<string>): Option<string>
  {
    match x
    case Absent => current
    case Null => None
    case Given(v) => Some(v)
  }

  /** The row after the update: each sent key overwrites its column, every other column stays. */
  function Patched(u: User, f: UserForm): User
    requires !WritesNull(f)
  {
    u.(name := if f.name.Given? then f.name.value else u.name,
       email := if f.email.Given? then f.email.value else u.email,
       userType := Written(f.userType, u.userType),
       approveUser := Written(f.approveUser, u.approveUser))
  }

  /** What `update` does to the database and answers. */
  ghost predicate UpdateSpec(before: Tables, after: Tables, id: nat, f: UserForm, emailWellFormed: bool,
                             r: Outcome)
  {
    var at := Locate(before.users, UserId, id);
    if at.None? then r == NotFound && after == before
    else if !ValidUserForm(before.users, id, f, emailWellFormed) then r == ValidationFailed && after == before
    else if WritesNull(f) then r == ServerError && after == before
    else r == Done && after == before.(users := before.users[at.value := Patched(before.users[at.value], f)])
  }

  /** What `destroy` does to the database and answers: the user's occurrences stay. */
  ghost predicate DestroySpec(before: Tables, after: Tables, id: nat, r: Outcome)
  {
    var at := Locate(before.users, UserId, id);
    if at.None? then r == NotFound && after == before
    else r == Done && after == before.(users := before.users[..at.value] + before.users[at.value + 1..])
  }

  /** `index` */
  method Index(db: Database) returns (users: seq<User>)
    ensures users == db.users
  {
    users := db.users;
  }

  /** `update` */
  method Update(db: Database, id: nat, f: UserForm, emailWellFormed: bool) returns (r: Outcome)
    requires db.Valid()
    modifies db
    ensures db.Valid()
    ensures UpdateSpec(old(db.Contents()), db.Contents(), id, f, emailWellFormed, r)
  {
    var at := Locate(db.users, UserId, id);
    if at.None? {
      return NotFound;
    }
    if !ValidUserForm(db.users, id, f, emailWellFormed) {
      return ValidationFailed;
    }
    if WritesNull(f) {
      return ServerError;
    }
    PatchKeepsEmailsUnique(db.users, db.nextUserId, at.value, f, emailWellFormed);
    db.users := db.users[at.value := Patched(db.users[at.value], f)];
    r := Done;
  }

  /** `destroy` */
  method Destroy(db: Database, id: nat) returns (r: Outcome)
    requires db.Valid()
    modifies db
    ensures db.Valid()
    ensures DestroySpec(old(db.Contents()), db.Contents(), id, r)
  {
    var at := Locate(db.users, UserId, id);
    if at.None? {
      return NotFound;
    }
    KeyedWithout(db.users, UserId, db.nextUserId, at.value);
    EmailsUniqueWithout(db.users, at.value);
    db.users := db.users[..at.value] + db.users[at.value + 1..];
    r := Done;
  }

  /** An accepted update keeps every email unique. */
  lemma PatchKeepsEmailsUnique(users: seq<User>, next: nat, i: nat, f: UserForm, emailWellFormed: bool)
    requires Keyed(users, UserId, next) && EmailsUnique(users)
    requires i < |users| && ValidUserForm(users, users[i].id, f, emailWellFormed) && !WritesNull(f)
    ensures EmailsUnique(users[i := Patched(users[i], f)])
    ensures Keyed(users[i := Patched(users[i], f)], UserId, next)
  {
    var after := users[i := Patched(users[i], f)];
    forall a, b | 0 <= a < |after| && 0 <= b < |after| && a != b
      ensures after[a].email != after[b].email
    {
      if a == i && f.email.Given? {
        assert UserId(users[b]) != UserId(users[i]) by {
          if b < i { assert UserId(users[b]) < UserId(users[i]); }
          else { assert UserId(users[i]) < UserId(users[b]); }
        }
      } else if b == i && f.email.Given? {
        assert UserId(users[a]) != UserId(users[i]) by {
          if a < i { assert UserId(users[a]) < UserId(users[i]); }
          else { assert UserId(users[i]) < UserId(users[a]); }
        }
      }
    }
  }

  /** Sending the user's own email again is accepted. */
  lemma OwnEmailIsFree(users: seq<User>, i: nat)
    requires EmailsUnique(users) && i < |users|
    ensures EmailFree(users, users[i].id, users[i].email)
  {
  }

  /** Taking the email of another user is refused. */
  lemma TakenEmailIsRefused(users: seq<User>, next: nat, i: nat, j: nat, f: UserForm, emailWellFormed: bool)
    requires Keyed(users, UserId, next)
    requires i < |users| && j < |users| && i != j
    requires f.email == Given(users[j].email)
    ensures !ValidUserForm(users, users[i].id, f, emailWellFormed)
  {
    assert UserId(users[i]) != UserId(users[j]) by {
      if i < j { assert UserId(users[i]) < UserId(users[j]); }
      else { assert UserId(users[j]) < UserId(users[i]); }
    }
  }

  /**
   * Only the sent keys change: the id and password always stay, an absent
   * key leaves its column, and `userType` and `ApproveUser` take any short
   * text, recognised type or not.
   */
  lemma PatchWritesOnlySentKeys(u: User, f: UserForm)
    requires !WritesNull(f)
    ensures Patched(u, f).id == u.id && Patched(u, f).password == u.password
    ensures f.name.Absent? ==> Patched(u, f).name == u.name
    ensures f.email.Absent? ==> Patched(u, f).email == u.email
    ensures f.userType.Absent? ==> Patched(u, f).userType == u.userType
    ensures f.approveUser.Absent? ==> Patched(u, f).approveUser == u.approveUser
    ensures f.userType.Given? ==> Patched(u, f).userType == Some(f.userType.value)
    ensures f.approveUser.Given? ==> Patched(u, f).approveUser == Some(f.approveUser.value)
  {
  }
}
