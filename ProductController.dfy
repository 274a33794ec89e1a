/**
 * The occurrence controller: which occurrences a user is shown, how an
 * occurrence and its evidence file are written, approved and rejected, the
 * rejection history, and the status the dashboard derives for each occurrence.
 *
 * The caller (the authenticated user), the current time and the path under
 * which the file store keeps an uploaded file are parameters.
 */
module ProductController {
  import opened Nullable
  import opened Schema
  import opened Query
  import opened Tally

  const ApprovedMark := "Aprovado"
  const RejectedMark := "Reprovado"

  /** Validation limits: `max:` in kilobytes on the two uploads. */
  const MaxPdfKbOnStore := 999048
  const MaxPdfKbOnReplace := 8048

  // ---------------------------------------------------------------------
  // Listing
  // ---------------------------------------------------------------------

  /** Whether `viewer` is shown occurrence `p` in the list. */
  predicate Visible(viewer: User, p: Product)
  {
    if viewer.userType == Some(StandardUser) then
      p.email == viewer.email
    else if viewer.userType == Some(PlusUser) then
      p.email == viewer.email || p.emailCreator == Some(viewer.email)
    else
      true
  }

  function CreatedAt(p: Product): Option<Timestamp> { p.createdAt }

  datatype UserSummary = UserSummary(id: nat, name: string, email: string)

  datatype IndexPage = IndexPage(products: seq<Product>, users: seq<UserSummary>)

  /**
   * The list page: the occurrences `viewer` may see, newest first, and the
   * id, name and email of every user.
   */
  function Index(products: seq<Product>, users: seq<User>, viewer: User): (page: IndexPage)
    ensures forall p :: multiset(page.products)[p] == if Visible(viewer, p) then multiset(products)[p] else 0
    ensures Descending(page.products, CreatedAt)
    ensures |page.users| == |users|
    ensures forall i :: 0 <= i < |users| ==>
              page.users[i] == UserSummary(users[i].id, users[i].name, users[i].email)
  {
    var shown := Where(products, (p: Product) => Visible(viewer, p));
    IndexPage(SortDescending(shown, CreatedAt),
              seq(|users|, i requires 0 <= i < |users| => UserSummary(users[i].id, users[i].name, users[i].email)))
  }

  /** A standard user is shown exactly the occurrences they reported. */
  lemma StandardUserSeesOwnReports(products: seq<Product>, users: seq<User>, viewer: User)
    requires viewer.userType == Some(StandardUser)
    ensures forall p :: p in Index(products, users, viewer).products <==> p in products && p.email == viewer.email
  {
    var page := Index(products, users, viewer);
    forall p ensures p in page.products <==> p in products && p.email == viewer.email {
      assert p in page.products <==> multiset(page.products)[p] > 0;
      assert p in products <==> multiset(products)[p] > 0;
    }
  }

  /**
   * A plus user is shown the occurrences they reported together with those
   * they created, each once per row of the table.
   */
  lemma PlusUserSeesReportedAndCreated(products: seq<Product>, users: seq<User>, viewer: User)
    requires viewer.userType == Some(PlusUser)
    ensures forall p :: p in Index(products, users, viewer).products <==>
              p in products && (p.email == viewer.email || p.emailCreator == Some(viewer.email))
    ensures forall p :: multiset(Index(products, users, viewer).products)[p] <= multiset(products)[p]
  {
    var page := Index(products, users, viewer);
    forall p ensures p in page.products <==>
                     p in products && (p.email == viewer.email || p.emailCreator == Some(viewer.email)) {
      assert p in page.products <==> multiset(page.products)[p] > 0;
      assert p in products <==> multiset(products)[p] > 0;
    }
  }

  /** Any other user type, administrators and users without a type included, is shown every occurrence. */
  lemma OtherUsersSeeEverything(products: seq<Product>, users: seq<User>, viewer: User)
    requires viewer.userType != Some(StandardUser) && viewer.userType != Some(PlusUser)
    ensures multiset(Index(products, users, viewer).products) == multiset(products)
  {
    var page := Index(products, users, viewer);
    assert forall p :: multiset(page.products)[p] == multiset(products)[p];
  }

  // ---------------------------------------------------------------------
  // Derived status
  // ---------------------------------------------------------------------

  datatype Status = Overdue | Pending | AwaitingApproval | Finished | EvidenceRefused | Unclassified

  /** The label the dashboard shows; an unclassified occurrence has the empty label. */
  function Label(s: Status): string
  {
    match s
    case Overdue => "Atrasado"
    case Pending => "Pendente"
    case AwaitingApproval => "Pendente Aprovação"
    case Finished => "Finalizado"
    case EvidenceRefused => "Evidência Recusada"
    case Unclassified => ""
  }

  /**
   * The empty label is the only one PHP treats as false, so the dashboard's
   * `if ($status)` skips exactly the unclassified occurrences.
   */
  lemma LabelFalsy(s: Status)
    ensures Label(s) == "" <==> s == Unclassified
  {
  }

  /** PHP truthiness of `pdf_path`: NULL, "" and "0" all count as no file. */
  predicate HasPdf(p: Product)
  {
    p.pdfPath.Some? && p.pdfPath.value != "" && p.pdfPath.value != "0"
  }

  /** The display status, first matching rule wins. */
  function DeriveStatus(p: Product, now: Timestamp): Status
  {
    if !HasPdf(p) && p.dueDate < now then Overdue
    else if !HasPdf(p) && p.dueDate >= now then Pending
    else if HasPdf(p) && p.confirmEvidency.None? then AwaitingApproval
    else if HasPdf(p) && p.confirmEvidency == Some(ApprovedMark) then Finished
    else if HasPdf(p) && p.confirmEvidency == Some(RejectedMark) then EvidenceRefused
    else Unclassified
  }

  /**
   * Without a file the status depends on the due date alone; with a file it
   * depends on `confirmEvidency` alone, and any value other than NULL,
   * "Aprovado" and "Reprovado" leaves the occurrence unclassified.
   */
  lemma StatusByPrecedence(p: Product, now: Timestamp)
    ensures !HasPdf(p) ==> DeriveStatus(p, now) == if p.dueDate < now then Overdue else Pending
    ensures HasPdf(p) ==>
              DeriveStatus(p, now) ==
                match p.confirmEvidency
                case None => AwaitingApproval
                case Some(c) =>
                  if c == ApprovedMark then Finished
                  else if c == RejectedMark then EvidenceRefused
                  else Unclassified
    ensures DeriveStatus(p, now) == Unclassified <==>
              HasPdf(p) && p.confirmEvidency.Some? &&
              p.confirmEvidency.value != ApprovedMark && p.confirmEvidency.value != RejectedMark
  {
  }

  // ---------------------------------------------------------------------
  // Requests and their validation
  // ---------------------------------------------------------------------

  /** The occurrence fields of the create and edit forms. */
  datatype OccurrenceForm = OccurrenceForm(
    cr: string, ocorrency: string, origin: string, action: string,
    startDate: Timestamp, dueDate: Timestamp, email: string)

  /** An uploaded file as the validator sees it. */
  datatype Upload = Upload(isPdf: bool, kilobytes: nat)

  /**
   * The create and edit forms' rules; `emailWellFormed` is the framework's
   * `email` rule's verdict on `f.email`, and `datesValid` its `required|date`
   * verdict on the submitted `startDate` and `dueDate` (both present and
   * parseable as dates).
   */
  predicate ValidForm(f: OccurrenceForm, emailWellFormed: bool, datesValid: bool)
  {
    && Filled(f.cr, MaxText)
    && Filled(f.ocorrency, MaxText)
    && Filled(f.origin, MaxText)
    && Filled(f.action, MaxText)
    && datesValid
    && Filled(f.email, MaxText) && emailWellFormed
  }

  /** `file|mimes:pdf|max:n` */
  predicate AcceptableUpload(u: Upload, maxKb: nat)
  {
    u.isPdf && u.kilobytes <= maxKb
  }

  // ---------------------------------------------------------------------
  // Row rewrites
  // ---------------------------------------------------------------------

  /** The row `store` inserts: the form, the file if one came, the creator; nothing else is set. */
  function NewOccurrence(id: nat, f: OccurrenceForm, pdfPath: Option<string>, creator: User,
                         confirmDefault: Option<string>, now: Timestamp): Product
  {
    Product(id, f.cr, f.ocorrency, f.origin, f.action, f.startDate, f.dueDate, f.email,
            pdfPath, confirmDefault, None, Some(creator.email), None, None, None,
            Some(creator.name), None, Some(now))
  }

  /** `update`: the seven form fields overwrite the row's. */
  function Edited(p: Product, f: OccurrenceForm): Product
  {
    p.(cr := f.cr, ocorrency := f.ocorrency, origin := f.origin, action := f.action,
       startDate := f.startDate, dueDate := f.dueDate, email := f.email)
  }

  /** `updatePdf`: a new file, its uploader and time, and the verdict cleared. */
  function WithNewPdf(p: Product, path: string, uploader: string, now: Timestamp): Product
  {
    p.(pdfPath := Some(path), confirmEvidency := None, reason := None, reasonDateTime := None,
       lastPdfUpload := Some(now), evidencyUpploader := Some(uploader))
  }

  /** `approveEvidency` */
  function WithApproval(p: Product, approver: string, now: Timestamp): Product
  {
    p.(confirmEvidency := Some(ApprovedMark), reason := None,
       evidencyApprover := Some(approver), reasonDateTime := Some(now))
  }

  /** `rejectEvidency`, the row part */
  function WithRejection(p: Product, reason: string, approver: string, now: Timestamp): Product
  {
    p.(confirmEvidency := Some(RejectedMark), reason := Some(reason),
       evidencyApprover := Some(approver), reasonDateTime := Some(now))
  }

  /** The history row can be inserted only when the occurrence has both a file path and an upload time. */
  predicate CanSnapshot(q: Product)
  {
    q.pdfPath.Some? && q.lastPdfUpload.Some?
  }

  /** `rejectEvidency`, the history part: the rejected row's evidence fields, copied. */
  function Snapshot(historyId: nat, q: Product): PdfHistory
    requires CanSnapshot(q)
  {
    PdfHistory(historyId, q.id, q.pdfPath.value, q.lastPdfUpload.value, q.evidencyUpploader,
               q.reason, q.reasonDateTime, q.evidencyApprover)
  }

  /** The evidence half of a row: everything the evidence workflow reads or writes. */
  predicate SameEvidence(p: Product, q: Product)
  {
    && p.pdfPath == q.pdfPath && p.confirmEvidency == q.confirmEvidency && p.reason == q.reason
    && p.lastPdfUpload == q.lastPdfUpload && p.evidencyUpploader == q.evidencyUpploader
    && p.evidencyApprover == q.evidencyApprover && p.reasonDateTime == q.reasonDateTime
  }

  /** The identity and authorship of a row. */
  predicate SameIdentity(p: Product, q: Product)
  {
    p.id == q.id && p.emailCreator == q.emailCreator && p.nameCreator == q.nameCreator && p.createdAt == q.createdAt
  }

  /**
   * A stored occurrence is created by the caller, carries no verdict but the
   * column's default, and starts out Overdue or Pending without a file and
   * awaiting approval with one when the default is NULL.
   */
  lemma NewOccurrenceStatus(id: nat, f: OccurrenceForm, pdfPath: Option<string>, creator: User,
                            confirmDefault: Option<string>, now: Timestamp, t: Timestamp)
    ensures var p := NewOccurrence(id, f, pdfPath, creator, confirmDefault, now);
      && p.emailCreator == Some(creator.email) && p.nameCreator == Some(creator.name)
      && p.confirmEvidency == confirmDefault && p.reason.None? && p.lastPdfUpload.None?
      && (!HasPdf(p) ==> DeriveStatus(p, t) in {Overdue, Pending})
      && (HasPdf(p) && confirmDefault.None? ==> DeriveStatus(p, t) == AwaitingApproval)
  {
  }

  /** Editing keeps the evidence and the authorship as they were. */
  lemma EditKeepsEvidence(p: Product, f: OccurrenceForm, now: Timestamp)
    ensures SameEvidence(p, Edited(p, f)) && SameIdentity(p, Edited(p, f))
    ensures HasPdf(p) ==> DeriveStatus(Edited(p, f), now) == DeriveStatus(p, now)
  {
  }

  /** A new file puts the occurrence back to awaiting approval, whatever its verdict was. */
  lemma ReuploadAwaitsApproval(p: Product, path: string, uploader: string, now: Timestamp, t: Timestamp)
    requires path != "" && path != "0"
    ensures DeriveStatus(WithNewPdf(p, path, uploader, now), t) == AwaitingApproval
    ensures SameIdentity(p, WithNewPdf(p, path, uploader, now))
    ensures WithNewPdf(p, path, uploader, now).evidencyApprover == p.evidencyApprover
  {
  }

  /**
   * Approval finishes an occurrence that has a file; one without a file is
   * approved all the same, and the dashboard goes on showing it by its due date.
   */
  lemma ApprovalOutcome(p: Product, approver: string, now: Timestamp, t: Timestamp)
    ensures HasPdf(p) ==> DeriveStatus(WithApproval(p, approver, now), t) == Finished
    ensures !HasPdf(p) ==> DeriveStatus(WithApproval(p, approver, now), t) == DeriveStatus(p, t)
    ensures WithApproval(p, approver, now).confirmEvidency == Some(ApprovedMark)
    ensures WithApproval(p, approver, now).pdfPath == p.pdfPath
  {
  }

  /** Rejection marks the evidence refused; without a file the due date still decides. */
  lemma RejectionOutcome(p: Product, reason: string, approver: string, now: Timestamp, t: Timestamp)
    ensures HasPdf(p) ==> DeriveStatus(WithRejection(p, reason, approver, now), t) == EvidenceRefused
    ensures !HasPdf(p) ==> DeriveStatus(WithRejection(p, reason, approver, now), t) == DeriveStatus(p, t)
  {
  }

  // ---------------------------------------------------------------------
  // Writes
  // ---------------------------------------------------------------------

  /** `store`: validate, insert one occurrence created by `caller`. */
  method Store(db: Database, caller: User, f: OccurrenceForm, emailWellFormed: bool, datesValid: bool,
               upload: Option<Upload>, storedPath: string, now: Timestamp) returns (r: Outcome)
    requires db.Valid()
    modifies db
    ensures db.Valid()
    ensures r == if ValidForm(f, emailWellFormed, datesValid) && (upload.None? || AcceptableUpload(upload.value, MaxPdfKbOnStore))
                 then Done else ValidationFailed
    ensures r == Done ==> db.Contents() == old(db.Contents()).(
              products := old(db.products) +
                [NewOccurrence(old(db.nextProductId), f, if upload.Some? then Some(storedPath) else None,
                               caller, db.confirmEvidencyDefault, now)],
              nextProductId := old(db.nextProductId) + 1)
    ensures r != Done ==> db.Contents() == old(db.Contents())
  {
    if !ValidForm(f, emailWellFormed, datesValid) || (upload.Some? && !AcceptableUpload(upload.value, MaxPdfKbOnStore)) {
      return ValidationFailed;
    }
    var pdfPath := if upload.Some? then Some(storedPath) else None;
    var p := NewOccurrence(db.nextProductId, f, pdfPath, caller, db.confirmEvidencyDefault, now);
    db.products := db.products + [p];
    db.nextProductId := db.nextProductId + 1;
    r := Done;
  }

  /** `update`: overwrite the seven form fields of one occurrence. */
  method Update(db: Database, id: nat, f: OccurrenceForm, emailWellFormed: bool, datesValid: bool)
    returns (r: Outcome)
    requires db.Valid()
    modifies db
    ensures db.Valid()
    ensures var at := Locate(old(db.products), ProductId, id);
      && (at.None? ==> r == NotFound)
      && (at.Some? && !ValidForm(f, emailWellFormed, datesValid) ==> r == ValidationFailed)
      && (at.Some? && ValidForm(f, emailWellFormed, datesValid) ==>
            r == Done &&
            db.Contents() == old(db.Contents()).(
              products := old(db.products)[at.value := Edited(old(db.products)[at.value], f)]))
    ensures r != Done ==> db.Contents() == old(db.Contents())
  {
    var at := Locate(db.products, ProductId, id);
    if at.None? {
      return NotFound;
    }
    if !ValidForm(f, emailWellFormed, datesValid) {
      return ValidationFailed;
    }
    db.products := db.products[at.value := Edited(db.products[at.value], f)];
    r := Done;
  }

  /** `updatePdf`: store a new file for one occurrence and reset its verdict. */
  method UpdatePdf(db: Database, id: nat, caller: User, upload: Option<Upload>, storedPath: string,
                   now: Timestamp) returns (r: Outcome)
    requires db.Valid()
    modifies db
    ensures db.Valid()
    ensures var at := Locate(old(db.products), ProductId, id);
      var ok := upload.Some? && AcceptableUpload(upload.value, MaxPdfKbOnReplace);
      && (at.None? ==> r == NotFound)
      && (at.Some? && !ok ==> r == ValidationFailed)
      && (at.Some? && ok ==>
            r == Done &&
            db.Contents() == old(db.Contents()).(
              products := old(db.products)[at.value :=
                WithNewPdf(old(db.products)[at.value], storedPath, caller.name, now)]))
    ensures r != Done ==> db.Contents() == old(db.Contents())
  {
    var at := Locate(db.products, ProductId, id);
    if at.None? {
      return NotFound;
    }
    if upload.None? || !AcceptableUpload(upload.value, MaxPdfKbOnReplace) {
      return ValidationFailed;
    }
    db.products := db.products[at.value := WithNewPdf(db.products[at.value], storedPath, caller.name, now)];
    r := Done;
  }

  /** `approveEvidency`: no precondition on the file or on an earlier verdict; history untouched. */
  method ApproveEvidency(db: Database, id: nat, caller: User, now: Timestamp) returns (r: Outcome)
    requires db.Valid()
    modifies db
    ensures db.Valid()
    ensures var at := Locate(old(db.products), ProductId, id);
      && (at.None? ==> r == NotFound && db.Contents() == old(db.Contents()))
      && (at.Some? ==>
            r == Done &&
            db.Contents() == old(db.Contents()).(
              products := old(db.products)[at.value := WithApproval(old(db.products)[at.value], caller.name, now)]))
  {
    var at := Locate(db.products, ProductId, id);
    if at.None? {
      return NotFound;
    }
    db.products := db.products[at.value := WithApproval(db.products[at.value], caller.name, now)];
    r := Done;
  }

  /**
   * `rejectEvidency`: mark the evidence refused with a reason, then copy the
   * evidence into the history.  The two writes are separate statements: when
   * the occurrence has no file path or no upload time (a file attached by
   * `store` never gets one) the history insert violates a NOT NULL column
   * and the request fails after the occurrence was already updated.
   */
  method RejectEvidency(db: Database, id: nat, caller: User, reason: Option<string>, now: Timestamp)
    returns (r: Outcome)
    requires db.Valid()
    modifies db
    ensures db.Valid()
    ensures var at := Locate(old(db.products), ProductId, id);
      var ok := reason.Some? && Filled(reason.value, MaxText);
      && (at.None? ==> r == NotFound && db.Contents() == old(db.Contents()))
      && (at.Some? && !ok ==> r == ValidationFailed && db.Contents() == old(db.Contents()))
      && (at.Some? && ok ==>
            var q := WithRejection(old(db.products)[at.value], reason.value, caller.name, now);
            && db.products == old(db.products)[at.value := q]
            && db.users == old(db.users) && db.nextProductId == old(db.nextProductId)
            && db.nextUserId == old(db.nextUserId)
            && (CanSnapshot(q) ==>
                  r == Done &&
                  db.pdfHistory == old(db.pdfHistory) + [Snapshot(old(db.nextHistoryId), q)] &&
                  db.nextHistoryId == old(db.nextHistoryId) + 1)
            && (!CanSnapshot(q) ==>
                  r == ServerError &&
                  db.pdfHistory == old(db.pdfHistory) && db.nextHistoryId == old(db.nextHistoryId)))
  {
    var at := Locate(db.products, ProductId, id);
    if at.None? {
      return NotFound;
    }
    if reason.None? || !Filled(reason.value, MaxText) {
      return ValidationFailed;
    }
    var q := WithRejection(db.products[at.value], reason.value, caller.name, now);
    db.products := db.products[at.value := q];
    if !CanSnapshot(q) {
      return ServerError;
    }
    db.pdfHistory := db.pdfHistory + [Snapshot(db.nextHistoryId, q)];
    db.nextHistoryId := db.nextHistoryId + 1;
    r := Done;
  }

  /**
   * A successful rejection leaves exactly one new history row, for this
   * occurrence, whose verdict fields are the occurrence's new ones and whose
   * evidence fields are the occurrence's unchanged ones.
   */
  lemma RejectionSnapshot(p: Product, reason: string, approver: string, now: Timestamp, historyId: nat)
    requires CanSnapshot(WithRejection(p, reason, approver, now))
    ensures var q := WithRejection(p, reason, approver, now);
      var e := Snapshot(historyId, q);
      && e.ocorrencyId == p.id
      && e.reason == Some(reason) && e.reason == q.reason
      && e.reasonDateTime == Some(now) && e.reasonDateTime == q.reasonDateTime
      && e.evidencyApprover == Some(approver) && e.evidencyApprover == q.evidencyApprover
      && Some(e.pdfPath) == p.pdfPath && Some(e.uploadDate) == p.lastPdfUpload
      && e.evidencyUploader == p.evidencyUpploader
  {
  }

  /**
   * A file attached by `store` never gets an upload time, so rejecting it
   * cannot write a history row until the file is replaced through `updatePdf`.
   */
  lemma StoredEvidenceHasNoSnapshot(id: nat, f: OccurrenceForm, path: string, creator: User,
                                    confirmDefault: Option<string>, now: Timestamp,
                                    reason: string, approver: string, t: Timestamp,
                                    newPath: string, uploader: string, t': Timestamp)
    ensures var p := NewOccurrence(id, f, Some(path), creator, confirmDefault, now);
      && !CanSnapshot(WithRejection(p, reason, approver, t))
      && CanSnapshot(WithRejection(WithNewPdf(p, newPath, uploader, t'), reason, approver, t))
  {
  }

  /** `destroy`: delete one occurrence; its history rows stay. */
  method Destroy(db: Database, id: nat) returns (r: Outcome)
    requires db.Valid()
    modifies db
    ensures db.Valid()
    ensures var at := Locate(old(db.products), ProductId, id);
      && (at.None? ==> r == NotFound && db.Contents() == old(db.Contents()))
      && (at.Some? ==>
            r == Done &&
            db.Contents() == old(db.Contents()).(
              products := old(db.products)[..at.value] + old(db.products)[at.value + 1..]))
  {
    var at := Locate(db.products, ProductId, id);
    if at.None? {
      return NotFound;
    }
    db.products := db.products[..at.value] + db.products[at.value + 1..];
    r := Done;
  }

  // ---------------------------------------------------------------------
  // Rejection history
  // ---------------------------------------------------------------------

  function ReasonTime(e: PdfHistory): Option<Timestamp> { e.reasonDateTime }

  /**
   * `pdfHistory`: the history rows of an existing occurrence, latest
   * rejection first; `None` is the not-found answer for an unknown id.
   */
  function PdfHistoryOf(products: seq<Product>, history: seq<PdfHistory>, id: nat): (r: Option<seq<PdfHistory>>)
    ensures r.None? <==> forall i :: 0 <= i < |products| ==> products[i].id != id
    ensures r.Some? ==> forall e :: multiset(r.value)[e] == if e.ocorrencyId == id then multiset(history)[e] else 0
    ensures r.Some? ==> Descending(r.value, ReasonTime)
  {
    if Locate(products, ProductId, id).None? then None
    else Some(SortDescending(Where(history, (e: PdfHistory) => e.ocorrencyId == id), ReasonTime))
  }

  /**
   * After a successful rejection the history of that occurrence lists the
   * new row, with the reason given.
   */
  lemma RejectionIsListed(products: seq<Product>, history: seq<PdfHistory>, id: nat, e: PdfHistory)
    requires exists i :: 0 <= i < |products| && products[i].id == id
    requires e.ocorrencyId == id
    ensures PdfHistoryOf(products, history + [e], id).Some?
    ensures e in PdfHistoryOf(products, history + [e], id).value
  {
    var listed := PdfHistoryOf(products, history + [e], id).value;
    assert multiset(history + [e])[e] > 0;
    assert multiset(listed)[e] > 0;
  }

  // ---------------------------------------------------------------------
  // Dashboard
  // ---------------------------------------------------------------------

  datatype Item = Item(cr: string, origin: string, status: Status)

  datatype DashboardData = DashboardData(
    statusCounts: map<Status, nat>,
    crCounts: map<string, nat>,
    originCounts: map<string, nat>,
    items: seq<Item>)

  /** The five statuses the dashboard counts; an unclassified occurrence is counted in none. */
  const Counted: set<Status> := {Overdue, Pending, AwaitingApproval, Finished, EvidenceRefused}

  function ItemOf(p: Product, now: Timestamp): Item
  {
    Item(p.cr, p.origin, DeriveStatus(p, now))
  }

  /** How many of `products` have status `s`. */
  function CountStatus(products: seq<Product>, now: Timestamp, s: Status): nat
  {
    if products == [] then 0
    else
      CountStatus(products[..|products| - 1], now, s) +
      (if DeriveStatus(products[|products| - 1], now) == s then 1 else 0)
  }

  /**
   * The counters after one more occurrence: the counter of its status goes
   * up by one, when its status is counted, and no other counter moves.
   */
  lemma CountersStep(products: seq<Product>, i: nat, now: Timestamp, counts: map<Status, nat>, status: Status)
    requires i < |products| && status == DeriveStatus(products[i], now)
    requires counts.Keys == Counted
    requires forall s :: s in counts ==> counts[s] == CountStatus(products[..i], now, s)
    ensures var next := if status != Unclassified then counts[status := counts[status] + 1] else counts;
      && next.Keys == Counted
      && forall s :: s in next ==> next[s] == CountStatus(products[..i + 1], now, s)
  {
    assert products[..i + 1][..i] == products[..i];
  }

  /** Every occurrence has exactly one status. */
  lemma {:induction false} StatusesPartition(products: seq<Product>, now: Timestamp)
    ensures CountStatus(products, now, Overdue) + CountStatus(products, now, Pending) +
            CountStatus(products, now, AwaitingApproval) + CountStatus(products, now, Finished) +
            CountStatus(products, now, EvidenceRefused) + CountStatus(products, now, Unclassified)
            == |products|
  {
    if products != [] {
      StatusesPartition(products[..|products| - 1], now);
    }
  }

  function Crs(products: seq<Product>): (c: seq<string>)
    ensures |c| == |products| && forall i :: 0 <= i < |products| ==> c[i] == products[i].cr
  {
    seq(|products|, i requires 0 <= i < |products| => products[i].cr)
  }

  function Origins(products: seq<Product>): (c: seq<string>)
    ensures |c| == |products| && forall i :: 0 <= i < |products| ==> c[i] == products[i].origin
  {
    seq(|products|, i requires 0 <= i < |products| => products[i].origin)
  }

  /**
   * The `foreach` of `dashboard`: one counter per counted status, each
   * occurrence raising at most one, and one item per occurrence, in order.
   */
  method ClassifyAll(products: seq<Product>, now: Timestamp) returns (counts: map<Status, nat>, items: seq<Item>)
    ensures counts.Keys == Counted
    ensures forall s :: s in counts ==> counts[s] == CountStatus(products, now, s)
    ensures |items| == |products|
    ensures forall i :: 0 <= i < |products| ==> items[i] == ItemOf(products[i], now)
  {
    counts := map[Overdue := 0, Pending := 0, AwaitingApproval := 0, Finished := 0, EvidenceRefused := 0];
    items := [];
    for i := 0 to |products|
      invariant counts.Keys == Counted
      invariant forall s :: s in counts ==> counts[s] == CountStatus(products[..i], now, s)
      invariant |items| == i
      invariant forall k :: 0 <= k < i ==> items[k] == ItemOf(products[k], now)
    {
      var status := DeriveStatus(products[i], now);
      CountersStep(products, i, now, counts, status);
      // `if ($status)`: by LabelFalsy, the label is false exactly when unclassified
      if status != Unclassified {
        counts := counts[status := counts[status] + 1];
      }
      items := items + [ItemOf(products[i], now)];
    }
    assert products[..|products|] == products;
  }

  /**
   * `dashboard` over all occurrences: the status counters and items of
   * `ClassifyAll`, the counted statuses adding up to every classified
   * occurrence, and the per-cr and per-origin counts, each adding up to the
   * number of occurrences.
   */
  method Dashboard(products: seq<Product>, now: Timestamp) returns (d: DashboardData)
    ensures d.statusCounts.Keys == Counted
    ensures forall s :: s in d.statusCounts ==> d.statusCounts[s] == CountStatus(products, now, s)
    ensures d.statusCounts[Overdue] + d.statusCounts[Pending] + d.statusCounts[AwaitingApproval] +
            d.statusCounts[Finished] + d.statusCounts[EvidenceRefused]
            == |products| - CountStatus(products, now, Unclassified)
    ensures |d.items| == |products|
    ensures forall i :: 0 <= i < |products| ==> d.items[i] == ItemOf(products[i], now)
    ensures d.crCounts == GroupCount(Crs(products)) && Total(d.crCounts) == |products|
    ensures d.originCounts == GroupCount(Origins(products)) && Total(d.originCounts) == |products|
  {
    var counts, items := ClassifyAll(products, now);
    StatusesPartition(products, now);
    GroupCountTotal(Crs(products));
    GroupCountTotal(Origins(products));
    d := DashboardData(counts, GroupCount(Crs(products)), GroupCount(Origins(products)), items);
  }
}
