/**
 * Registration: validate the form, decide the approval flag from the
 * occurrences already reported under the email, insert one user.
 * Hashing the password is a foreign call: its result is a parameter.
 */
module RegisteredUserController {
  import opened Nullable
  import opened Schema
  import AppServiceProvider

  /** The default password rule: at least eight characters. */
  const MinPassword := 8

  datatype RegistrationForm = RegistrationForm(
    name: string, email: string, password: string, passwordConfirmation: string)

  /** Which of the two redirect messages the new user is shown. */
  datatype Message = ApprovedAutomatically | AwaitApproval

  datatype Registration = Rejected | Registered(message: Message)

  /** `lowercase`, on the ASCII letters. */
  predicate Lowercase(s: string)
  {
    forall i :: 0 <= i < |s| ==> !('A' <= s[i] <= 'Z')
  }

  predicate EmailTaken(users: seq<User>, email: string)
  {
    exists i :: 0 <= i < |users| && users[i].email == email
  }

  /**
   * The form's rules; `emailWellFormed` is the framework's `email` rule's
   * verdict on `f.email`.
   */
  predicate ValidRegistration(users: seq<User>, f: RegistrationForm, emailWellFormed: bool)
  {
    && Filled(f.name, MaxText)
    && Filled(f.email, MaxText) && Lowercase(f.email) && emailWellFormed && !EmailTaken(users, f.email)
    && 0 < |f.password| && f.password == f.passwordConfirmation && |f.password| >= MinPassword
  }

  /** Whether some occurrence names `email` as its reporter (the `exists()` query on `products.email`). */
  function ReportedBy(products: seq<Product>, email: string): (b: bool)
    ensures b <==> exists i :: 0 <= i < |products| && products[i].email == email
  {
    if products == [] then false
    else products[0].email == email || ReportedBy(products[1..], email)
  }

  /** The user registration inserts: always a standard user, approved exactly when already a reporter. */
  function NewUser(id: nat, f: RegistrationForm, passwordHash: string, products: seq<Product>): User
  {
    User(id, f.name, f.email, passwordHash, Some(StandardUser),
         Some(if ReportedBy(products, f.email) then ApprovalYes else ApprovalNo))
  }

  /** `store` */
  method Store(db: Database, f: RegistrationForm, emailWellFormed: bool, passwordHash: string)
    returns (r: Registration)
    requires db.Valid()
    modifies db
    ensures db.Valid()
    ensures r == if !ValidRegistration(old(db.users), f, emailWellFormed) then Rejected
                 else if ReportedBy(old(db.products), f.email) then Registered(ApprovedAutomatically)
                 else Registered(AwaitApproval)
    ensures r.Registered? ==>
              db.Contents() == old(db.Contents()).(
                users := old(db.users) + [NewUser(old(db.nextUserId), f, passwordHash, old(db.products))],
                nextUserId := old(db.nextUserId) + 1)
    ensures r.Rejected? ==> db.Contents() == old(db.Contents())
  {
    if !ValidRegistration(db.users, f, emailWellFormed) {
      return Rejected;
    }
    var reporter := ReportedBy(db.products, f.email);
    db.users := db.users + [NewUser(db.nextUserId, f, passwordHash, db.products)];
    db.nextUserId := db.nextUserId + 1;
    r := Registered(if reporter then ApprovedAutomatically else AwaitApproval);
  }

  /**
   * Only the reporter column counts: the new user is approved ("Sim") exactly
   * when some occurrence has their email as `email`, and "Nao" otherwise,
   * whatever occurrences they created.
   */
  lemma ApprovalFollowsReports(id: nat, f: RegistrationForm, passwordHash: string, products: seq<Product>)
    ensures NewUser(id, f, passwordHash, products).userType == Some(StandardUser)
    ensures NewUser(id, f, passwordHash, products).approveUser == Some(ApprovalYes) <==>
              exists i :: 0 <= i < |products| && products[i].email == f.email
    ensures NewUser(id, f, passwordHash, products).approveUser == Some(ApprovalNo) <==>
              forall i :: 0 <= i < |products| ==> products[i].email != f.email
  {
  }

  /**
   * A freshly registered user passes the `approved` rule exactly when
   * registration approved them.
   */
  lemma {:induction false} RegisteredUserApproval(users: seq<User>, id: nat, f: RegistrationForm,
                                                   emailWellFormed: bool, passwordHash: string,
                                                   products: seq<Product>)
    requires ValidRegistration(users, f, emailWellFormed)
    ensures AppServiceProvider.Approved(users + [NewUser(id, f, passwordHash, products)], f.email) <==>
              ReportedBy(products, f.email)
  {
    var all := users + [NewUser(id, f, passwordHash, products)];
    forall j | 0 <= j < |users| ensures all[j].email != f.email {
      assert all[j] == users[j];
    }
    AppServiceProvider.FirstMatchDecides(all, f.email, |users|);
  }
}
