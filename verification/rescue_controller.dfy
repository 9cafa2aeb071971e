/**
 * A citizen's side of a case: submitting it, which takes the deposit from the
 * wallet, and reading one case back.
 */
module RescueController {
  import opened Wrappers
  import opened RescueRequestModel
  import opened UserModel
  import opened WalletTransactionModel
  import opened Replies
  import opened Store
  import opened FormFields

  /** The deposit taken at submission. */
  const DepositAmount: real := 20.0

  /** The submission form; the coordinates are converted with the lenient decimal parser. */
  datatype Submission = Submission(description: Option<string>, lat: Field, lng: Field, address: Option<string>)

  /** The presence check: a non-empty description and truthy coordinates. */
  predicate FieldsPresent(f: Submission) {
    f.description.Some? && f.description.value != "" && Truthy(f.lat) && Truthy(f.lng)
  }

  /** One media file: uploaded, with its URL and whether it is a video, or failed. */
  datatype Upload = Uploaded(isVideo: bool, url: string) | UploadFailed

  /** What one file adds to the image URLs: its URL when it is an uploaded image. */
  function ImageOf(file: Upload): seq<string> {
    if file.Uploaded? && !file.isVideo then [file.url] else []
  }

  /** The URLs of the uploaded images, in upload order. */
  function ImageUrls(files: seq<Upload>): seq<string> {
    if files == [] then [] else ImageOf(files[0]) + ImageUrls(files[1..])
  }

  /** Whether a file is an uploaded video. */
  predicate IsVideo(file: Upload) {
    file.Uploaded? && file.isVideo
  }

  /** The URL of the last uploaded video: every earlier one is overwritten. */
  function LastVideo(files: seq<Upload>): Option<string> {
    if files == [] then None
    else
      var rest := LastVideo(files[1..]);
      if rest.Some? then rest else if IsVideo(files[0]) then Some(files[0].url) else None
  }

  /** The image URLs are exactly those of the uploaded images, at most one per file. */
  lemma {:induction false} ImageUrlsMembers(files: seq<Upload>)
    ensures |ImageUrls(files)| <= |files|
    ensures forall u :: u in ImageUrls(files) <==> Uploaded(false, u) in files
  {
    if files != [] {
      ImageUrlsMembers(files[1..]);
      assert files == [files[0]] + files[1..];
    }
  }

  /** No video exactly when none was uploaded; otherwise the one uploaded last. */
  lemma {:induction false} LastVideoIsLast(files: seq<Upload>)
    ensures LastVideo(files).None? <==> forall i | 0 <= i < |files| :: !IsVideo(files[i])
    ensures LastVideo(files).Some? ==>
              exists i | 0 <= i < |files| :: files[i] == Uploaded(true, LastVideo(files).value)
                && forall j | i < j < |files| :: !IsVideo(files[j])
  {
    if files != [] {
      var rest := files[1..];
      LastVideoIsLast(rest);
      assert forall i | 1 <= i < |files| :: files[i] == rest[i - 1];
      if LastVideo(rest).Some? {
        var i :| 0 <= i < |rest| && rest[i] == Uploaded(true, LastVideo(rest).value)
                 && forall j | i < j < |rest| :: !IsVideo(rest[j]);
        assert files[i + 1] == rest[i];
      } else if IsVideo(files[0]) {
        assert files[0] == Uploaded(true, LastVideo(files).value);
      }
    }
  }

  /** Collecting image URLs is compatible with splitting the upload sequence. */
  lemma {:induction false} ImageUrlsAppend(a: seq<Upload>, b: seq<Upload>)
    ensures ImageUrls(a + b) == ImageUrls(a) + ImageUrls(b)
  {
    if a == [] {
      assert a + b == b;
    } else {
      assert (a + b)[1..] == a[1..] + b;
      ImageUrlsAppend(a[1..], b);
    }
  }

  /** The video kept from a split upload sequence is the second part's, if it has one, else the first part's. */
  lemma {:induction false} LastVideoAppend(a: seq<Upload>, b: seq<Upload>)
    ensures LastVideo(a + b) == if LastVideo(b).Some? then LastVideo(b) else LastVideo(a)
  {
    if a == [] {
      assert a + b == b;
    } else {
      assert (a + b)[1..] == a[1..] + b;
      LastVideoAppend(a[1..], b);
    }
  }

  /** A failed upload contributes nothing: it is skipped, and the others are kept. */
  lemma FailedUploadSkipped(a: seq<Upload>, b: seq<Upload>)
    ensures ImageUrls(a + [UploadFailed] + b) == ImageUrls(a + b)
    ensures LastVideo(a + [UploadFailed] + b) == LastVideo(a + b)
  {
    var failed := [UploadFailed];
    assert ImageUrls(failed) == [] && LastVideo(failed) == None by {
      assert failed[1..] == [];
    }
    ImageUrlsAppend(a + failed, b);
    ImageUrlsAppend(a, failed);
    ImageUrlsAppend(a, b);
    assert ImageUrls(a + failed) == ImageUrls(a);
    LastVideoAppend(a + failed, b);
    LastVideoAppend(a, failed);
    LastVideoAppend(a, b);
  }

  /** The upload loop: images appended in order, the video overwritten by each later one, failures skipped. */
  method CollectMedia(files: seq<Upload>) returns (images: seq<string>, video: Option<string>)
    ensures images == ImageUrls(files)
    ensures video == LastVideo(files)
  {
    images := [];
    video := None;
    for k := 0 to |files|
      invariant images == ImageUrls(files[..k])
      invariant video == LastVideo(files[..k])
    {
      var file := files[k];
      assert files[..k + 1] == files[..k] + [file];
      ImageUrlsAppend(files[..k], [file]);
      LastVideoAppend(files[..k], [file]);
      assert [file][1..] == [];
      if file.Uploaded? {
        if file.isVideo {
          video := Some(file.url);
        } else {
          images := images + [file.url];
        }
      }
    }
    assert files[..|files|] == files;
  }

  /**
   * The media gathered for a submission. `media` is None when the uploaded
   * files do not arrive as a list, in which case nothing is uploaded.
   */
  function MediaImages(media: Option<seq<Upload>>): seq<string> {
    if media.Some? then ImageUrls(media.value) else []
  }

  function MediaVideo(media: Option<seq<Upload>>): Option<string> {
    if media.Some? then LastVideo(media.value) else None
  }

  /** The upload step of a submission: it runs only when the files arrive as a non-empty list. */
  method GatherMedia(media: Option<seq<Upload>>) returns (images: seq<string>, video: Option<string>)
    ensures images == MediaImages(media) && video == MediaVideo(media)
  {
    images := [];
    video := None;
    if media.Some? && |media.value| > 0 {
      images, video := CollectMedia(media.value);
    }
  }

  /** The case the store is asked to create; None when a coordinate converts to no number. */
  function Candidate(f: Submission, caller: UserId, images: seq<string>, video: Option<string>,
                     parse: string -> Option<real>, now: Time): (r: Option<RescueRequest>)
    requires FieldsPresent(f)
    ensures r.Some? <==> ToNumber(f.lat, parse).Some? && ToNumber(f.lng, parse).Some?
    ensures r.Some? ==> && r.value.user == caller && r.value.status == Pending
                        && r.value.depositDeducted && !r.value.depositRefunded
                        && r.value.images == images && r.value.video == video
                        && r.value.description == Trim(f.description.value)
                        && r.value.location == CaseLocation(ToNumber(f.lat, parse).value, ToNumber(f.lng, parse).value, f.address.GetOr(""))
  {
    var lat := ToNumber(f.lat, parse);
    var lng := ToNumber(f.lng, parse);
    if lat.None? || lng.None? then None
    else Some(NewRescueRequest(caller, f.description.value, images, video,
                               CaseLocation(lat.value, lng.value, f.address.GetOr("")), true, now))
  }

  /** Whether the store accepts the candidate case. */
  predicate Creatable(cand: Option<RescueRequest>) {
    cand.Some? && ValidRescue(cand.value)
  }

  /** The outcome of a submission on one wallet: the reply, the balance after it, and whether a case was stored. */
  datatype SubmitEffect = SubmitEffect(reply: Result<RescueRequest, Failure>, balance: real, created: bool)

  /** Deposit and case go together: either a case is stored and 20 taken, or nothing changes. */
  predicate DebitAtomic(balance: real, e: SubmitEffect) {
    if e.created then e.reply.Ok? && e.balance == balance - DepositAmount && e.balance >= 0.0
    else e.reply.Err? && e.balance == balance
  }

  /**
   * The submission as written: the deposit is taken before the store
   * validates the case, so a case the store refuses still costs the deposit.
   */
  function SubmitAsWritten(f: Submission, caller: UserId, balance: real, images: seq<string>, video: Option<string>,
                           parse: string -> Option<real>, now: Time): (e: SubmitEffect)
    ensures e.created <==> e.reply.Ok?
    ensures e.created ==> DebitAtomic(balance, e)
  {
    if !FieldsPresent(f) then SubmitEffect(Err(BadRequest(MissingFields)), balance, false)
    else if balance < DepositAmount then SubmitEffect(Err(BadRequest(InsufficientBalance)), balance, false)
    else
      var cand := Candidate(f, caller, images, video, parse, now);
      if Creatable(cand) then SubmitEffect(Ok(cand.value), balance - DepositAmount, true)
      else SubmitEffect(Err(ServerError), balance - DepositAmount, false)
  }

  /** A whitespace-only description passes the presence check, yet the store refuses it after the deposit is gone. */
  lemma AsWrittenLosesDeposit(parse: string -> Option<real>)
    ensures var e := SubmitAsWritten(Submission(Some(" "), Number(28.6), Number(77.2), None), 0, 20.0, [], None, parse, 0);
            e.reply == Err(ServerError) && e.balance == 0.0 && !e.created && !DebitAtomic(20.0, e)
  {
    assert LeadingSpace(" ") == 1 by {
      assert " "[1..] == "";
    }
  }

  /**
   * The submission as intended: the case is checked against the store's
   * validators before the deposit is taken.
   */
  function Submit(f: Submission, caller: UserId, balance: real, images: seq<string>, video: Option<string>,
                  parse: string -> Option<real>, now: Time): (e: SubmitEffect)
    ensures DebitAtomic(balance, e)
    ensures !FieldsPresent(f) ==> e.reply == Err(BadRequest(MissingFields))
    ensures FieldsPresent(f) && balance < DepositAmount ==> e.reply == Err(BadRequest(InsufficientBalance))
    ensures e.reply.Ok? <==> FieldsPresent(f) && balance >= DepositAmount && Creatable(Candidate(f, caller, images, video, parse, now))
    ensures e.reply.Ok? ==> e.created && e.reply.value == Candidate(f, caller, images, video, parse, now).value
    ensures e.reply.Ok? ==> ValidRescue(e.reply.value) && e.reply.value.user == caller && e.reply.value.depositDeducted
  {
    if !FieldsPresent(f) then SubmitEffect(Err(BadRequest(MissingFields)), balance, false)
    else if balance < DepositAmount then SubmitEffect(Err(BadRequest(InsufficientBalance)), balance, false)
    else
      var cand := Candidate(f, caller, images, video, parse, now);
      if !Creatable(cand) then SubmitEffect(Err(BadRequest(InvalidRequest)), balance, false)
      else SubmitEffect(Ok(cand.value), balance - DepositAmount, true)
  }

  /** The correction changes only the refused submissions: whenever either version succeeds, both agree. */
  lemma SubmitAgreesOnSuccess(f: Submission, caller: UserId, balance: real, images: seq<string>, video: Option<string>,
                              parse: string -> Option<real>, now: Time)
    ensures SubmitAsWritten(f, caller, balance, images, video, parse, now).created
            <==> Submit(f, caller, balance, images, video, parse, now).created
    ensures Submit(f, caller, balance, images, video, parse, now).created ==>
              SubmitAsWritten(f, caller, balance, images, video, parse, now) == Submit(f, caller, balance, images, video, parse, now)
  {
  }

  /** The ledger entry recording the deposit taken for case `id`. */
  function DebitEntry(caller: UserId, id: CaseId, balanceAfter: real): (t: WalletTransaction)
    ensures t.user == caller && t.kind == Debit && t.rescueRequest == Some(id)
    ensures Signed(t) == -DepositAmount && t.balanceAfter == balanceAfter
  {
    WalletTransaction(caller, DepositAmount, Debit, Some(id), None, None, balanceAfter)
  }

  /** Storing a new case whose deposit was taken, with its debit entry, keeps the store consistent. */
  lemma RecordSubmission(cases: seq<RescueRequest>, users: seq<Account>, ledger: seq<WalletTransaction>, c: RescueRequest)
    requires Consistent(cases, users, ledger)
    requires c.user < |users| && users[c.user].walletBalance >= DepositAmount
    requires c.depositDeducted && !c.depositRefunded
    ensures var u := c.user;
            Consistent(cases + [c],
                       users[u := users[u].(walletBalance := users[u].walletBalance - DepositAmount)],
                       ledger + [DebitEntry(u, |cases|, users[u].walletBalance - DepositAmount)])
  {
    var u := c.user;
    var t := DebitEntry(u, |cases|, users[u].walletBalance - DepositAmount);
    var cs := cases + [c];
    NextCaseUnreferenced(cases, users, ledger);
    WalletTransactionModel.AppendEntry(ledger, t);
    forall k | 0 <= k < |cs| ensures DepositAccounted(cs[k], k, ledger + [t]) {
      if k < |cases| {
        assert DepositAccounted(cases[k], k, ledger);
      }
    }
    AppendLedgerEntry(cases, users, ledger, cs, t);
  }

  /**
   * The submission handler, with the validation done before the debit. The
   * presence check comes first; a caller whose account is gone makes the
   * balance lookup throw.
   */
  method SubmitRescue(db: Db, caller: UserId, f: Submission, media: Option<seq<Upload>>,
                      parse: string -> Option<real>, now: Time) returns (r: Result<RescueRequest, Failure>)
    requires db.Valid()
    modifies db
    ensures db.Valid()
    ensures !FieldsPresent(f) ==> r == Err(BadRequest(MissingFields))
    ensures FieldsPresent(f) && caller >= |old(db.users)| ==> r == Err(ServerError)
    ensures FieldsPresent(f) && caller < |old(db.users)| ==>
              var e := Submit(f, caller, old(db.users)[caller].walletBalance, MediaImages(media), MediaVideo(media), parse, now);
              && r == e.reply
              && db.users == (if e.created then old(db.users)[caller := old(db.users)[caller].(walletBalance := e.balance)] else old(db.users))
              && db.cases == old(db.cases) + (if e.created then [e.reply.value] else [])
              && db.ledger == old(db.ledger) + (if e.created then [DebitEntry(caller, |old(db.cases)|, e.balance)] else [])
    ensures r.Err? ==> db.cases == old(db.cases) && db.users == old(db.users) && db.ledger == old(db.ledger)
  {
    if !FieldsPresent(f) {
      return Err(BadRequest(MissingFields));
    }
    if caller >= |db.users| {
      return Err(ServerError);
    }
    var user := db.users[caller];
    if user.walletBalance < DepositAmount {
      return Err(BadRequest(InsufficientBalance));
    }

    var images, video := GatherMedia(media);
    r := CreateChecked(db, caller, f, images, video, parse, now);
  }

  /**
   * The part of a submission after the presence and balance checks: the case
   * is validated, and only a valid one is stored and paid for.
   */
  method CreateChecked(db: Db, caller: UserId, f: Submission, images: seq<string>, video: Option<string>,
                       parse: string -> Option<real>, now: Time) returns (r: Result<RescueRequest, Failure>)
    requires db.Valid()
    requires FieldsPresent(f) && caller < |db.users| && db.users[caller].walletBalance >= DepositAmount
    modifies db
    ensures db.Valid()
    ensures var e := Submit(f, caller, old(db.users)[caller].walletBalance, images, video, parse, now);
            && r == e.reply
            && db.users == (if e.created then old(db.users)[caller := old(db.users)[caller].(walletBalance := e.balance)] else old(db.users))
            && db.cases == old(db.cases) + (if e.created then [e.reply.value] else [])
            && db.ledger == old(db.ledger) + (if e.created then [DebitEntry(caller, |old(db.cases)|, e.balance)] else [])
  {
    var candidate := Candidate(f, caller, images, video, parse, now);
    if !Creatable(candidate) {
      return Err(BadRequest(InvalidRequest));
    }
    r := StoreSubmission(db, candidate.value);
  }

  /** Taking the deposit from the reporter of a validated case, storing the case and its debit entry. */
  method StoreSubmission(db: Db, rescue: RescueRequest) returns (r: Result<RescueRequest, Failure>)
    requires db.Valid()
    requires rescue.user < |db.users| && db.users[rescue.user].walletBalance >= DepositAmount
    requires rescue.depositDeducted && !rescue.depositRefunded
    modifies db
    ensures db.Valid()
    ensures r == Ok(rescue)
    ensures var u := rescue.user;
            var balance := old(db.users)[u].walletBalance - DepositAmount;
            && db.users == old(db.users)[u := old(db.users)[u].(walletBalance := balance)]
            && db.cases == old(db.cases) + [rescue]
            && db.ledger == old(db.ledger) + [DebitEntry(u, |old(db.cases)|, balance)]
  {
    var user := db.users[rescue.user];
    var id := |db.cases|;
    user := user.(walletBalance := user.walletBalance - DepositAmount);
    RecordSubmission(db.cases, db.users, db.ledger, rescue);
    db.users := db.users[rescue.user := user];
    db.cases := db.cases + [rescue];
    db.ledger := db.ledger + [DebitEntry(rescue.user, id, user.walletBalance)];
    r := Ok(rescue);
  }

  /**
   * Reading one case: any role may read any case, except that a citizen may
   * read only their own. The reporter's account is looked up for a citizen's
   * ownership check, which throws when that account is gone.
   */
  function GetRescueById(cases: seq<RescueRequest>, users: seq<Account>, id: CaseId, caller: UserId, role: Role)
    : (r: Result<RescueRequest, Failure>)
    ensures id >= |cases| ==> r == Err(NotFound)
    ensures r.Ok? <==> id < |cases| && (role == Citizen ==> cases[id].user == caller && cases[id].user < |users|)
    ensures r.Ok? ==> r.value == cases[id]
    ensures id < |cases| && role == Citizen && cases[id].user < |users| && cases[id].user != caller ==> r == Err(Forbidden(NotOwner))
  {
    if id >= |cases| then Err(NotFound)
    else if role == Citizen && cases[id].user >= |users| then Err(ServerError)
    else if role == Citizen && cases[id].user != caller then Err(Forbidden(NotOwner))
    else Ok(cases[id])
  }
}
