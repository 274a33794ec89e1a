/** The `approved` validation rule registered when the application boots. */
module AppServiceProvider {
  import opened Nullable
  import opened Schema

  /** The position of the first user with `email`, in table order, as `first()` finds it. */
  function FirstByEmail(users: seq<User>, email: string): (r: Option<nat>)
    ensures r.Some? ==> r.value < |users| && users[r.value].email == email &&
                        forall j :: 0 <= j < r.value ==> users[j].email != email
    ensures r.None? ==> forall j :: 0 <= j < |users| ==> users[j].email != email
  {
    if users == [] then None
    else if users[0].email == email then Some(0)
    else match FirstByEmail(users[1..], email)
      case None => None
      case Some(k) => Some(k + 1)
  }

  /**
   * The rule on an email value: it fails when no user has that email and
   * when the first such user's `ApproveUser` is exactly "Nao"; any other
   * value, NULL included, passes.  It reads the users and changes nothing.
   */
  function Approved(users: seq<User>, email: string): bool
  {
    match FirstByEmail(users, email)
    case None => false
    case Some(i) => users[i].approveUser != Some(ApprovalNo)
  }

  /** An email no user has fails the rule. */
  lemma UnknownEmailFails(users: seq<User>, email: string)
    requires forall j :: 0 <= j < |users| ==> users[j].email != email
    ensures !Approved(users, email)
  {
  }

  /** The first user with the email decides, and only the exact sentinel "Nao" blocks. */
  lemma FirstMatchDecides(users: seq<User>, email: string, i: nat)
    requires i < |users| && users[i].email == email
    requires forall j :: 0 <= j < i ==> users[j].email != email
    ensures Approved(users, email) <==> users[i].approveUser != Some(ApprovalNo)
  {
  }

  /** When emails are unique, a user present with a value other than "Nao" passes. */
  lemma PresentUserDecides(users: seq<User>, i: nat)
    requires EmailsUnique(users)
    requires i < |users|
    ensures Approved(users, users[i].email) <==> users[i].approveUser != Some(ApprovalNo)
  {
    FirstMatchDecides(users, users[i].email, i);
  }
}
