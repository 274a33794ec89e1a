/**
 * The three tables the controllers read and write (`products`, `pdf_history`
 * and `users`), one datatype per row, and the database object that holds them.
 *
 * A table is a sequence of rows in primary-key order: ids are handed out by an
 * auto-increment counter, so they are strictly increasing along the sequence
 * and a row is found by its id.  Dates and times are integers (a timestamp).
 */
module Schema {
  import opened Nullable

  type Timestamp = int

  /** The values of `users.userType` the code tests for. */
  const StandardUser := "Usuario Padrão"
  const PlusUser := "Usuario Plus"
  const AdminUser := "ADM"

  /** The values registration writes into `users.ApproveUser`. */
  const ApprovalYes := "Sim"
  const ApprovalNo := "Nao"

  /** A row of `products`: one reported occurrence and its evidence fields. */
  datatype Product = Product(
    id: nat,
    cr: string,
    ocorrency: string,
    origin: string,
    action: string,
    startDate: Timestamp,
    dueDate: Timestamp,
    email: string,                          // the reporter
    pdfPath: Option<string>,                // stored evidence file
    confirmEvidency: Option<string>,        // free text: "Aprovado", "Reprovado", NULL or a legacy value
    reason: Option<string>,                 // rejection reason
    emailCreator: Option<string>,
    lastPdfUpload: Option<Timestamp>,
    evidencyUpploader: Option<string>,
    evidencyApprover: Option<string>,
    nameCreator: Option<string>,
    reasonDateTime: Option<Timestamp>,      // time of the last approval or rejection
    createdAt: Option<Timestamp>)           // Eloquent's created_at

  /** A row of `pdf_history`: the evidence of an occurrence as it stood when it was rejected. */
  datatype PdfHistory = PdfHistory(
    id: nat,
    ocorrencyId: nat,
    pdfPath: string,                        // NOT NULL column
    uploadDate: Timestamp,                  // NOT NULL column
    evidencyUploader: Option<string>,
    reason: Option<string>,
    reasonDateTime: Option<Timestamp>,
    evidencyApprover: Option<string>)

  /** A row of `users`; the authenticated caller of a request is one of these. */
  datatype User = User(
    id: nat,
    name: string,                           // NOT NULL column
    email: string,                          // NOT NULL, unique index
    password: string,                       // the stored hash
    userType: Option<string>,
    approveUser: Option<string>)

  /** The `max:255` limit the forms put on text fields. */
  const MaxText := 255

  /** `required|string|max:n` */
  predicate Filled(s: string, n: nat)
  {
    0 < |s| <= n
  }

  /** What a request handler answers, stripped of its page or redirect. */
  datatype Outcome = Done | NotFound | ValidationFailed | ServerError

  function ProductId(p: Product): nat { p.id }
  function HistoryId(h: PdfHistory): nat { h.id }
  function UserId(u: User): nat { u.id }

  /** Ids strictly increase along the table and all lie below the next id to hand out. */
  ghost predicate Keyed<T>(rows: seq<T>, key: T -> nat, next: nat)
  {
    && (forall i, j :: 0 <= i < j < |rows| ==> key(rows[i]) < key(rows[j]))
    && (forall i :: 0 <= i < |rows| ==> key(rows[i]) < next)
  }

  /** The unique index on `users.email`. */
  ghost predicate EmailsUnique(users: seq<User>)
  {
    forall i, j :: 0 <= i < |users| && 0 <= j < |users| && i != j ==> users[i].email != users[j].email
  }

  /** The position of the row with primary key `id`, as a route's model binding finds it. */
  function Locate<T>(rows: seq<T>, key: T -> nat, id: nat): (r: Option<nat>)
    ensures r.Some? ==> r.value < |rows| && key(rows[r.value]) == id
    ensures r.None? ==> forall i :: 0 <= i < |rows| ==> key(rows[i]) != id
  {
    if rows == [] then None
    else if key(rows[0]) == id then Some(0)
    else match Locate(rows[1..], key, id)
      case None => None
      case Some(k) => Some(k + 1)
  }

  /** Deleting a row keeps the remaining ids increasing. */
  lemma KeyedWithout<T>(rows: seq<T>, key: T -> nat, next: nat, i: nat)
    requires Keyed(rows, key, next) && i < |rows|
    ensures Keyed(rows[..i] + rows[i + 1..], key, next)
  {
    var rest := rows[..i] + rows[i + 1..];
    assert forall k :: 0 <= k < |rest| ==> rest[k] == rows[if k < i then k else k + 1];
  }

  /** Deleting a user keeps the remaining emails unique. */
  lemma EmailsUniqueWithout(users: seq<User>, i: nat)
    requires EmailsUnique(users) && i < |users|
    ensures EmailsUnique(users[..i] + users[i + 1..])
  {
    var rest := users[..i] + users[i + 1..];
    assert forall k :: 0 <= k < |rest| ==> rest[k] == users[if k < i then k else k + 1];
  }

  /** Everything the database holds, as one value. */
  datatype Tables = Tables(
    products: seq<Product>,
    pdfHistory: seq<PdfHistory>,
    users: seq<User>,
    nextProductId: nat,
    nextHistoryId: nat,
    nextUserId: nat)

  class Database {
    var products: seq<Product>
    var pdfHistory: seq<PdfHistory>
    var users: seq<User>
    var nextProductId: nat
    var nextHistoryId: nat
    var nextUserId: nat
    /**
     * The value `products.confirmEvidency` takes when an insert leaves it out.
     * The column began as a boolean defaulting to false and was later changed
     * to a nullable string, so depending on the database this is NULL or a
     * leftover such as "0".
     */
    const confirmEvidencyDefault: Option<string>

    ghost predicate Valid()
      reads this
    {
      && Keyed(products, ProductId, nextProductId)
      && Keyed(pdfHistory, HistoryId, nextHistoryId)
      && Keyed(users, UserId, nextUserId)
      && EmailsUnique(users)
    }

    function Contents(): Tables
      reads this
    {
      Tables(products, pdfHistory, users, nextProductId, nextHistoryId, nextUserId)
    }

    constructor (confirmDefault: Option<string>)
      ensures Valid()
      ensures Contents() == Tables([], [], [], 1, 1, 1)
      ensures confirmEvidencyDefault == confirmDefault
    {
      products, pdfHistory, users := [], [], [];
      nextProductId, nextHistoryId, nextUserId := 1, 1, 1;
      confirmEvidencyDefault := confirmDefault;
    }
  }
}
