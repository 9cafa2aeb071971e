# ResQPet rescue-case lifecycle, modelled in Dafny

ResQPet is a rescue service for injured animals. A citizen reports a case and pays a ₹20 deposit from their wallet. Nearby NGOs may accept or reject the case. A case that no NGO accepts within five minutes is escalated to hospitals. A hospital dispatches one of its ambulances, which drives the case through en route, picked up and delivered. Delivery completes the case at once and refunds the deposit. Administrators approve organisation accounts and may override any case's status.

This project models that engine over three collections, held in the class `Store.Db`:

- the cases (`RescueRequestModel.RescueRequest`);
- the accounts (`UserModel.Account`);
- the append-only wallet ledger (`WalletTransactionModel.WalletTransaction`).

A record's id is its position in its collection. The engine never deletes records.

`Db.Valid()` is the store invariant:

- no balance is negative;
- every balance is what the ledger replays to;
- every entry's `balanceAfter` is its owner's balance at that point;
- every entry refers to an existing account and case;
- each case's deposit flags match the number of debit and refund entries that reference it.

Every handler that changes the store is a method on `Db` that keeps `Valid()`. Each is proved against a pure function on records, which states what the handler replies and what it changes. Every refusal leaves the store unchanged.

Some things outside the model become parameters:

- The great-circle distance is a function parameter (`CaseRows.Distance`).
- The lenient text-to-number conversion used on form fields is a parameter (`string -> Option<real>`).
- The outcome of the gateway's signature check is a boolean.
- The clock is a `nat` of milliseconds passed in.
- Media uploads are a sequence of outcomes, each either uploaded or failed.

The cron tick's failing saves are given as a set of case ids.

The code differs from the documented design in a few places. The model follows the code:

- A case an NGO accepted (`ngo_accepted`) has no successor in any handler. Escalation only reads `pending` cases, and dispatch only `hospital_escalated` ones. So an accepted case stays accepted unless an administrator overrides it (`Lifecycle.NgoAcceptedIsTerminal`). The design describes the accepted state as leading on to escalation and dispatch.
- Requesting `delivered` stores `completed`, so a case never rests in `delivered`.
- An update on a case with no assigned ambulance fails with a server error. The ownership check dereferences the missing reference.
- A coordinate or amount sent as the JSON number 0 counts as missing in the presence checks, and a 0 coordinate in a profile location counts as no location. A multipart form field arrives as text, so "0" is non-empty and counts as present (`FormFields.Truthy`).
- The deposit constant 20 is declared separately in backend/controllers/rescueController.js:6 and backend/controllers/ambulanceController.js:5. Both are modelled (`RescueController.DepositAmount`, `AmbulanceController.DepositAmount`).

## Model

| member | source | states |
|---|---|---|
| RescueRequestModel.ParseStatus | backend/models/RescueRequest.js:53-67 | the enum validator: a name is accepted exactly when it is the wire name of one of the nine statuses, and then it maps to that status |
| RescueRequestModel.ParseStatusName | backend/models/RescueRequest.js:53-67 | every status's wire name parses back to that status |
| RescueRequestModel.LeadingSpace | backend/models/RescueRequest.js:30 | counts the white space the trimmer drops at the front: all of it is white space and the next character is not |
| RescueRequestModel.TrailingSpace | backend/models/RescueRequest.js:30 | counts the white space the trimmer drops at the end: all of it is white space and the character before it is not |
| RescueRequestModel.Trim | backend/models/RescueRequest.js:30 | the trimmed description is the slice of the input left between the leading and trailing white space; it neither starts nor ends with white space; it is empty exactly when the input is all white space |
| RescueRequestModel.TrimIdempotent | backend/models/RescueRequest.js:30 | trimming twice is trimming once |
| RescueRequestModel.Utf16Length | backend/models/RescueRequest.js:31 | the length the maximum-length validator sees: between the number of characters and twice it |
| RescueRequestModel.Utf16LengthByPlane | backend/models/RescueRequest.js:31 | the code-unit count equals the character count without astral characters, and is twice it when every character is astral |
| RescueRequestModel.ValidRescue | backend/models/RescueRequest.js:27-40 | the validators run at creation: a required, trimmed description of at most 1000 UTF-16 code units, and at most 5 images |
| RescueRequestModel.AstralCountsTwice | backend/models/RescueRequest.js:31 | a description of 501 emoji has at most 1000 characters yet is refused as too long |
| RescueRequestModel.NewRescueRequest | backend/models/RescueRequest.js:22-113 | a new case is pending, has no deposit refunded, no assignee, no milestone, no rejections and empty notes; it passes the validators exactly when the trimmed description is non-empty and at most 1000 UTF-16 code units long and there are at most 5 images |
| UserModel.NewAccount | backend/models/User.js:29-52 | a new account takes the given role (a citizen when absent), a zero balance, availability, and no location or linked hospital; it is approved exactly when the role is not an organisation role |
| UserModel.HasLocation | backend/controllers/hospitalController.js:14-15 | a profile location counts only when both coordinates are present and non-zero |
| WalletTransactionModel.AppendEntry | backend/models/WalletTransaction.js:15-49 | appending an entry changes only its owner's replayed balance, by its signed amount; it adds one to the count of its own kind and case only; it keeps the ledger chained when its `balanceAfter` is the new balance |
| WalletTransactionModel.ReplayOfStranger | backend/models/WalletTransaction.js:10-14 | an account that owns no entry replays to a zero balance |
| WalletTransactionModel.CountOfUnreferenced | backend/models/WalletTransaction.js:40-44 | a case that no entry references has no entries of any kind |
| WalletTransactionModel.LatestEntryShowsBalance | backend/models/WalletTransaction.js:46-49 | in a chained ledger an account's latest entry records exactly the balance the whole ledger gives that account |
| Store.Db.constructor | backend/models/User.js:35-39 | a store of accounts with empty wallets and no cases satisfies the store invariant |
| Store.UpdateCase | backend/models/RescueRequest.js:68-76 | changing a case in anything but its reporter and its deposit flags keeps the store invariant |
| Store.UpdateAccount | backend/models/User.js:35-39 | changing an account in anything but its balance keeps the store invariant |
| Store.AppendLedgerEntry | backend/models/WalletTransaction.js:15-49 | appending a valid entry, with its owner's balance set to a non-negative `balanceAfter` equal to the old balance plus the entry's signed amount, keeps the store invariant provided the deposit flags count the entry |
| Store.NextCaseUnreferenced | backend/models/WalletTransaction.js:40-44 | in a consistent store no ledger entry references the id the next new case takes |
| Queries.Select | backend/controllers/adminController.js:108-111 | a selection holds exactly the records satisfying the filter, each with its own id, in strictly increasing id order |
| Queries.SelectSortedById | backend/controllers/hospitalController.js:109-113 | a selection is ordered by id |
| Queries.Filter | backend/controllers/ngoController.js:35 | a filtered sequence holds exactly the elements satisfying the predicate, and is no longer than its input |
| Queries.FilterKeepsLex | backend/controllers/ngoController.js:30-35 | filtering keeps an existing order |
| Queries.FilterCounts | backend/controllers/ngoController.js:35 | filtering keeps each element satisfying the predicate as often as it occurs and drops every other |
| Queries.FilterKeepsDistinct | backend/controllers/ngoController.js:35 | filtering keeps ids distinct |
| Queries.Insert | backend/controllers/ngoController.js:36 | insertion adds exactly one element to the multiset of the sequence |
| Queries.InsertSorted | backend/controllers/ngoController.js:36 | insertion into a sorted sequence keeps it sorted |
| Queries.SortBy | backend/controllers/ngoController.js:36 | the sort by a numeric key returns a permutation of its input in non-decreasing key order |
| Queries.InsertLex | backend/controllers/ngoController.js:36 | inserting an element whose tie-breaking key is the largest keeps an order broken by that key |
| Queries.StableSortIsLex | backend/controllers/ngoController.js:22-36 | the sort is stable: equal keys keep the order of the input |
| Queries.SortKeepsMembers | backend/controllers/ngoController.js:36 | sorting neither adds nor drops an element |
| Queries.PermutationKeepsDistinct | backend/controllers/ngoController.js:36 | a reordering of a listing with distinct ids has distinct ids |
| Queries.SelectOrdered | backend/controllers/ngoController.js:17-22 | a sorted selection is a permutation of the selection: exactly the records satisfying the filter, each with its own id and each once, ordered by the key with ties in id order |
| Queries.LexIsSorted | backend/controllers/hospitalController.js:24-34 | an order with ties broken is an order by the first key |
| CaseRows.Annotate | backend/controllers/ngoController.js:30-34 | each selected case becomes one row, in the same order, with its distance from the caller (null without a location); an order by age or by escalation time, and distinct ids, carry over to the rows |
| CaseRows.AnnotateMembers | backend/controllers/hospitalController.js:28-32 | a row of the annotated rows is exactly a selected case paired with its own distance |
| NgoController.OldestFirst | backend/controllers/ngoController.js:17-22 | the NGO's candidates are exactly the pending cases it has not rejected, each listed once, oldest first, ties in id order |
| NgoController.Nearest | backend/controllers/ngoController.js:28-36 | keeps each row within 50 km as often as it occurs and drops the others, so distinct ids stay distinct; nearest first, ties oldest first |
| NgoController.NearbyCases | backend/controllers/ngoController.js:9-53 | `locationSet` is whether both coordinates are truthy; the rows are exactly the pending cases the NGO has not rejected, each once with its distance, restricted to 50 km when the location is set; ordered nearest first then oldest first with a location, oldest first without one |
| NgoController.VisibleToNgo | backend/controllers/ngoController.js:17-20 | the store query of the nearby listing: pending and not rejected by this NGO |
| NgoController.Accept | backend/controllers/ngoController.js:72-81 | accepting succeeds exactly from pending, sets the status, the NGO and the acceptance time and nothing else; otherwise it is refused with the current status |
| NgoController.Reject | backend/controllers/ngoController.js:104-112 | rejecting succeeds exactly from pending, never changes the status, and adds the NGO to the rejections only when it is not there yet |
| NgoController.SecondAcceptFails | backend/controllers/ngoController.js:72-80 | after one NGO accepts, a second accept is refused and the first NGO stays assigned |
| NgoController.AcceptIgnoresRejections | backend/controllers/ngoController.js:69-82 | an NGO that rejected a pending case can still accept it |
| NgoController.RejectIdempotent | backend/controllers/ngoController.js:109-112 | rejecting twice is rejecting once, and the rejections only grow |
| NgoController.RejectedCaseHidden | backend/controllers/ngoController.js:17-20 | once an NGO rejects a case, the case is absent from that NGO's nearby listing |
| NgoController.AcceptCase | backend/controllers/ngoController.js:65-90 | a missing case is not found; otherwise the reply is the accept outcome, and only a success stores the updated case |
| NgoController.RejectCase | backend/controllers/ngoController.js:97-120 | a missing case is not found; otherwise the reply is the reject outcome, and only a success stores the updated case |
| HospitalController.LongestEscalatedFirst | backend/controllers/hospitalController.js:22-24 | the hospital's candidates are exactly the escalated cases, each listed once, longest-escalated first, ties in id order |
| HospitalController.NearestEscalated | backend/controllers/hospitalController.js:28-34 | keeps each row within 10 km as often as it occurs and drops the others, so distinct ids stay distinct; nearest first, ties longest-escalated first |
| HospitalController.EscalatedCases | backend/controllers/hospitalController.js:10-42 | refused, asking for a location, exactly when a coordinate is not truthy; otherwise the rows are exactly the escalated cases within 10 km, each once with its distance, nearest first |
| HospitalController.LinkedAmbulances | backend/controllers/hospitalController.js:106-113 | exactly the approved ambulance accounts linked to the hospital, in strictly increasing id order, so each once |
| HospitalController.Dispatchable | backend/controllers/hospitalController.js:59-65 | the ambulance lookup's filter: an approved ambulance linked to this hospital and available |
| HospitalController.AmbulanceEligible | backend/controllers/hospitalController.js:59-67 | the lookup finds the requested account exactly when it exists and is dispatchable |
| HospitalController.Assign | backend/controllers/hospitalController.js:78-86 | dispatch succeeds exactly from hospital_escalated and records the hospital, the ambulance and the time and nothing else; otherwise it is refused with the current status |
| HospitalController.AssignAmbulance | backend/controllers/hospitalController.js:49-99 | a missing ambulance id is refused first, then an ambulance that is not an approved, available ambulance linked to the hospital, then a missing case; a success stores the dispatched case and makes the ambulance unavailable; any refusal changes nothing |
| HospitalController.DispatchedAmbulanceIneligible | backend/controllers/hospitalController.js:59-65 | a dispatched ambulance cannot be dispatched again, by any hospital, until it is released |
| AmbulanceController.AssignedTask | backend/controllers/ambulanceController.js:16-26 | the active task is the first case in id order that is assigned to the caller and active (assigned, en route or picked up); none exactly when there is no such case |
| AmbulanceController.NextStatus | backend/controllers/ambulanceController.js:46-50 | the table has exactly three entries: assigned to en route, en route to picked up, picked up to delivered |
| AmbulanceController.Advance | backend/controllers/ambulanceController.js:56-85 | the checks run in order: no assigned ambulance is a server error, another ambulance is forbidden, a status without a next step and then a request other than the next step are refused; a success sets the status and its milestone, and delivery completes the case with both timestamps |
| AmbulanceController.RefundDue | backend/controllers/ambulanceController.js:90 | the refund condition: completed, deposit taken and not yet refunded |
| AmbulanceController.RefundEntry | backend/controllers/ambulanceController.js:96-103 | the refund entry credits the reporter 20 for the case and records the new balance |
| AmbulanceController.RecordRefund | backend/controllers/ambulanceController.js:90-106 | refunding an owed deposit (crediting 20, appending the refund entry and marking the case refunded) keeps the store invariant |
| AmbulanceController.UpdateStatus | backend/controllers/ambulanceController.js:41-134 | a missing case is not found, and every refusal changes nothing; a success stores the advanced case, refunds the deposit when the completed case owes it and the reporter's account exists, and makes the caller available once the case is completed |
| AmbulanceController.SaveAdvanced | backend/controllers/ambulanceController.js:87-123 | saving an advanced case and settling it stores the case, refunded when it owes its deposit and the reporter exists, and releases the caller once it is completed |
| AmbulanceController.SettleCompletion | backend/controllers/ambulanceController.js:89-123 | a completed case that owes its deposit is refunded exactly once with its entry (skipped when the reporter is gone), and a completed case releases the caller |
| AmbulanceController.RefundDeposit | backend/controllers/ambulanceController.js:89-112 | a completed case that owes its deposit is marked refunded, its reporter credited 20 and one refund entry appended; it is skipped when the reporter is gone |
| AmbulanceController.ReleaseAmbulance | backend/controllers/ambulanceController.js:114-122 | a completed case makes the caller available again, and nothing else changes |
| AmbulanceController.RefundAtMostOnce | backend/controllers/ambulanceController.js:90-105 | once refunded, a case owes nothing, and a completed case admits no further update |
| AmbulanceController.NeverRestsInDelivered | backend/controllers/ambulanceController.js:80-85 | no successful update leaves a case delivered |
| AmbulanceController.CompletionRefundsDeposit | backend/controllers/ambulanceController.js:80-90 | the assigned ambulance can always deliver a picked-up case, and the completed case owes its deposit exactly when one was taken and not yet returned |
| RescueController.ImageUrlsMembers | backend/controllers/rescueController.js:39-55 | the image URLs are exactly those of the uploaded images, at most one per file |
| RescueController.LastVideoIsLast | backend/controllers/rescueController.js:49-51 | no video exactly when none was uploaded; otherwise the URL of an uploaded video after which no other video was uploaded |
| RescueController.ImageUrlsAppend | backend/controllers/rescueController.js:53 | image URLs keep upload order across any split of the files |
| RescueController.FailedUploadSkipped | backend/controllers/rescueController.js:56-59 | a failed upload changes neither the image URLs nor the video kept |
| RescueController.LastVideoAppend | backend/controllers/rescueController.js:49-51 | of a split upload sequence, the video kept is the second part's when it has one, else the first part's |
| RescueController.CollectMedia | backend/controllers/rescueController.js:33-61 | the upload loop yields exactly the image URLs in order and the last video |
| RescueController.GatherMedia | backend/controllers/rescueController.js:36 | uploads run only when the files arrive as a non-empty list |
| RescueController.FieldsPresent | backend/controllers/rescueController.js:19-21 | the presence check: a non-empty description and truthy coordinates |
| RescueController.Candidate | backend/controllers/rescueController.js:69-80 | the case to create exists exactly when both coordinates convert to numbers; it belongs to the caller, is pending with the deposit taken, and carries the trimmed description, the media, the coordinates and the address (empty when absent) |
| RescueController.SubmitAsWritten | backend/controllers/rescueController.js:14-104 | the handler as written: whenever it creates a case, exactly 20 was taken and the balance stays non-negative |
| RescueController.AsWrittenLosesDeposit | backend/controllers/rescueController.js:63-80 | a whitespace-only description with a balance of 20 ends with a server error, a balance of 0 and no case |
| RescueController.Submit | backend/controllers/rescueController.js:14-104 | deposit and case go together; missing fields, then a balance below 20, are refused unchanged; it succeeds exactly when the fields are present, the balance covers the deposit and the store accepts the case, which belongs to the caller |
| RescueController.SubmitAgreesOnSuccess | backend/controllers/rescueController.js:63-90 | the corrected handler creates a case exactly when the handler as written does, with the same reply and balance |
| RescueController.DebitEntry | backend/controllers/rescueController.js:83-90 | the debit entry takes 20 from the caller for the new case and records the new balance |
| RescueController.RecordSubmission | backend/controllers/rescueController.js:63-90 | storing a new case whose deposit was taken, with its debit entry, keeps the store invariant |
| RescueController.SubmitRescue | backend/controllers/rescueController.js:14-104 | missing fields are refused first, then a missing account is a server error, and then a balance below 20; otherwise the reply, balance, new case and debit entry are those of the corrected submission |
| RescueController.CreateChecked | backend/controllers/rescueController.js:63-90 | after the presence and balance checks, the reply, balance, new case and debit entry are those of the corrected submission: a case the store refuses changes nothing |
| RescueController.StoreSubmission | backend/controllers/rescueController.js:63-90 | takes exactly 20 from the reporter, appends the case and one debit entry referencing it, and records the new balance |
| RescueController.GetRescueById | backend/controllers/rescueController.js:133-156 | a missing case is not found; a citizen may read only their own case, any other role any case; the reply is the stored case |
| EscalationCron.Escalated | backend/jobs/escalationCron.js:40-41 | an escalated case has status hospital_escalated and the tick time, and nothing else changes |
| EscalationCron.IsStale | backend/jobs/escalationCron.js:22-27 | the cron query: pending and created no later than five minutes before the tick, the boundary included |
| EscalationCron.TickResult | backend/jobs/escalationCron.js:22-49 | one tick changes exactly the stale pending cases whose save succeeds, each to its escalated form |
| EscalationCron.EscalationTick | backend/jobs/escalationCron.js:38-49 | the per-case loop leaves the cases exactly as one tick prescribes and touches no account or entry |
| EscalationCron.BoundaryInclusive | backend/jobs/escalationCron.js:22-27 | a pending case exactly five minutes old is stale, and one a millisecond younger is not |
| EscalationCron.SixMinutesVersusThree | backend/jobs/escalationCron.js:22-28 | a case pending for six minutes is escalated, one pending for three is left alone |
| EscalationCron.NothingStaleNoChange | backend/jobs/escalationCron.js:30-33 | when nothing qualifies, a tick changes nothing |
| EscalationCron.SecondTickKeepsEscalated | backend/jobs/escalationCron.js:25-26 | a later tick does not touch a case an earlier tick escalated |
| EscalationCron.TickIdempotent | backend/jobs/escalationCron.js:25-42 | ticking twice at the same time is ticking once |
| EscalationCron.FailureIsolated | backend/jobs/escalationCron.js:44-46 | a failing save changes the outcome of no other case |
| PaymentController.RoundHalfUp | backend/controllers/paymentController.js:23 | rounding lands within half of its input, halves upwards |
| PaymentController.Paise | backend/controllers/paymentController.js:23 | the paise amount is the rupee amount times 100, rounded to the nearest integer |
| PaymentController.WholeRupeesToPaise | backend/controllers/paymentController.js:23 | a whole number of rupees converts exactly to 100 times as many paise |
| PaymentController.CreateOrder | backend/controllers/paymentController.js:16-23 | an order is made exactly when the amount is truthy, a number and at least 10; it is then made out for that many paise, at least 1000; anything else is refused as below the minimum |
| PaymentController.FieldsPresent | backend/controllers/paymentController.js:60-62 | the presence check: non-empty order id, payment id and signature, and a truthy amount |
| PaymentController.VerifyAsWritten | backend/controllers/paymentController.js:55-106 | the handler as written: whenever it credits, the balance grows by exactly the non-negative amount |
| PaymentController.AsWrittenNegativeAmount | backend/controllers/paymentController.js:79-93 | a signed request for -5 on a balance of 100 leaves 95 with no ledger entry |
| PaymentController.Verify | backend/controllers/paymentController.js:55-106 | balance and ledger go together; missing fields, then a bad signature, are refused unchanged; it credits exactly when the fields are present, the signature is valid and the amount is a non-negative number |
| PaymentController.VerifyAgreesOnSuccess | backend/controllers/paymentController.js:79-93 | on a non-negative balance the corrected handler credits exactly when the handler as written does, with the same outcome |
| PaymentController.CreditEntry | backend/controllers/paymentController.js:85-93 | the credit entry adds the amount for the caller, carries the gateway ids and records the new balance |
| PaymentController.RecordCredit | backend/controllers/paymentController.js:80-93 | crediting a non-negative amount with its entry keeps the store invariant |
| PaymentController.VerifyPayment | backend/controllers/paymentController.js:55-106 | missing fields are refused first, then a bad signature, then a missing account is a server error; otherwise the reply, balance and credit entry are those of the corrected verification, and any refusal changes nothing |
| RoleGuard.AllowRoles | backend/middleware/roleGuard.js:10-47 | no user is unauthenticated; a role outside the list is forbidden; an unapproved organisation account is forbidden; access passes exactly when the user is present, the role is allowed and the role is not an organisation role or the account is approved |
| RoleGuard.ApprovalIgnoredForCitizensAndAdmins | backend/middleware/roleGuard.js:32-41 | for citizens and administrators the approval flag never changes the decision |
| RoleGuard.FreshAccountsAtTheGate | backend/middleware/roleGuard.js:32-39 | a fresh organisation account is held back until approved, while a fresh citizen or administrator account passes where its role is allowed |
| AdminController.OrDefault | backend/controllers/adminController.js:69-70 | an absent, unparsable or zero parameter gives the default; any other value is kept |
| AdminController.CeilDiv | backend/controllers/adminController.js:92 | the quotient rounded up: the least integer not below total/limit, for either sign of the limit |
| AdminController.Paginate | backend/controllers/adminController.js:69-92 | page and limit default to 1 and 20 and are never zero; skip is (page-1)×limit; the page count is total/limit rounded up, so with a positive limit (pages-1)×limit < total ≤ pages×limit |
| AdminController.PageWithinRange | backend/controllers/adminController.js:180-201 | with a positive page size, a page from 1 up is one of the counted pages exactly when it starts inside the listing |
| AdminController.PendingApprovals | backend/controllers/adminController.js:108-111 | exactly the unapproved organisation accounts, each listed once, oldest first, ties in id order |
| AdminController.Approve | backend/controllers/adminController.js:134-138 | only organisation accounts may be approved or revoked, others are refused; the account ends approved unless the request says exactly false, and nothing else changes |
| AdminController.ApproveUser | backend/controllers/adminController.js:126-151 | a missing account is not found; otherwise the reply is the approval outcome, and only a success stores it |
| AdminController.Override | backend/controllers/adminController.js:214-225 | an invalid status name is a validation error whether or not the case exists; with a valid or absent status, a missing case is not found; a success sets the named status (kept when absent) and the notes (empty when absent), and nothing else |
| AdminController.OverrideReachesAnyStatus | backend/controllers/adminController.js:219-223 | the override bypasses the progression table: any status can be set on any case |
| AdminController.OverrideRescueStatus | backend/controllers/adminController.js:214-233 | the reply is the override outcome (a validation error for an invalid name, then not found for a missing case) and only a success stores the case |
| Lifecycle.EscalateIsTick | backend/jobs/escalationCron.js:25-42 | escalating one case is the tick applied to that case alone |
| Lifecycle.StepFollowsFlow | backend/models/RescueRequest.js:6-11 | every handler but the override moves a case only along the documented flow, except that picked up goes straight to completed; none of them leaves a case delivered |
| Lifecycle.DeliveryIsShortcut | backend/models/RescueRequest.js:6-11 | delivered lies on the documented path between picked up and completed, and there is no direct edge between the two |
| Lifecycle.Step | backend/models/RescueRequest.js:6-11 | one handler's effect on a case, a refusal leaving it unchanged; no handler changes the reporter, the report, its creation time or whether a deposit was taken, and none takes a refund back |
| Lifecycle.Run | backend/models/RescueRequest.js:6-11 | a sequence of handlers keeps the reporter, the report, its creation time and the deposit-taken flag, and never takes a refund back |
| Lifecycle.NgoAcceptedIsTerminal | backend/controllers/ngoController.js:79 | no sequence of handlers but the override moves a case out of ngo_accepted |
| Lifecycle.NeverCancelledByEngine | backend/models/RescueRequest.js:64 | no sequence of handlers but the override cancels a case |
| Lifecycle.NewCaseProgressed | backend/models/RescueRequest.js:69-100 | a freshly created case satisfies the milestone invariant |
| Lifecycle.StepKeepsProgressed | backend/controllers/ambulanceController.js:77-85 | every handler but the override keeps the assignees and milestones in step with the status, and never refunds without a debit |
| Lifecycle.AdvanceKeepsProgressed | backend/controllers/ambulanceController.js:77-85 | an ambulance update keeps the assignees and milestones in step with the status |
| Lifecycle.OverrideSkipsMilestones | backend/controllers/adminController.js:219-223 | the override can complete a pending case that never reached any milestone |
| Lifecycle.RunKeepsProgressed | backend/models/RescueRequest.js:93-100 | any sequence of handlers without the override keeps the milestone invariant |
| Lifecycle.StepKeepsRefund | backend/controllers/ambulanceController.js:90-106 | no handler, the override included, takes a refund back, and only an ambulance update on a case whose deposit was taken refunds it |
| Lifecycle.RefundedAtMostOnce | backend/controllers/ambulanceController.js:90-106 | over any sequence of handlers, the override included, a deposit is refunded at most once, and only if it was taken |
| Lifecycle.RunFirst | backend/models/RescueRequest.js:6-11 | running a sequence is stepping its first action, then running the rest, with the refund counts adding up |
| Lifecycle.DriveToCompletion | backend/controllers/ambulanceController.js:46-106 | the assigned ambulance completes a case in three updates, setting every milestone and refunding a taken deposit once |
| Lifecycle.PrimaryPath | backend/models/RescueRequest.js:6-11 | a case pending for five minutes is escalated, dispatched and driven to completion, with the deposit refunded exactly when it was taken |

## Left out

- Great-circle distance: the haversine formula is floating-point trigonometry, so distance is a function parameter. Because distances are `real`, a NaN distance is not modelled.
- Arithmetic is exact: money and coordinates are `real`, not IEEE doubles. The rounding of sums such as 0.1 + 0.2 is not modelled.
- Media upload: streaming to the media host is foreign I/O. Each file is modelled as its outcome, either a URL or a failure. The files field is registered per field name, so it arrives as an object and not a list. That case is the `None` media, which uploads nothing.
- Payment gateway: order creation at the gateway and the HMAC-SHA256 signature are left out. The signature check is a boolean parameter.
- Authentication, password hashing and profile handlers are not part of this model. The gate receives the authenticated account or none.
- Scheduling and concurrency: the cron schedule is left out, and one tick is a method taking the time. The handlers read and then save with no atomicity, so the model is sequential. Concurrent saves within one tick are modelled only as independent per-case failures.
- Listings beyond their arithmetic: getAllUsers and getAllRescues are modelled only as their pagination, without the role, search and status filters or the newest-first order. getAnalytics and deleteUser are left out. So are the per-user lists getMyRescues, getMyCases and getHistory, and the Phase 2 fields (service type, payment status, commission).
- Populated references and response shapes: a listing returns records, not populated JSON.
- Malformed ids: a request id that is not a valid ObjectId raises a cast error (a server error). The model's ids are numbers, so only "not found" is modelled.
- Non-string and non-boolean bodies: a status, notes or `approve` value of another JSON type is modelled as absent.
- Ordering of equal sort keys: the store's natural order is modelled as id order. It breaks ties between equal creation or escalation times.
- Text: strings are sequences of Unicode scalar values, so an unpaired surrogate cannot be represented. The white-space set is the ECMAScript one. The maximum-length validator counts UTF-16 code units, two per astral character (`RescueRequestModel.Utf16Length`).
- The limit parameter: how the store treats a negative page limit is not modelled. `AdminController.Paginate` states the page-count bounds only for a positive limit.
- RescueController.SubmitRescue: the upload loop runs after the balance check, and a missing account is a server error, as in the code. The store's refusal of a case (invalid description or too many images) is modelled as the corrected outcome, `BadRequest(InvalidRequest)` with no debit, not as the code's server error after the debit. The code's behaviour is in `RescueController.SubmitAsWritten`.
- PaymentController.VerifyPayment: a negative amount is refused with `BadRequest(InvalidAmount)`, the corrected behaviour. An amount that converts to no number is taken to be refused by the store's number cast (a server error) before any change.
- AmbulanceController.UpdateStatus: the reporter account and the ambulance release are modelled as succeeding whenever the account exists. Other failures of those saves are not modelled.

## Findings

| source | as written | input that shows it | evidently intended | confidence | as-written member | corrected member |
|---|---|---|---|---|---|---|
| backend/controllers/rescueController.js:63-80 | the deposit is taken and saved before the case is created, and the case's validators run only at creation | description " " (passes the presence check, empty after trimming), balance 20: the store refuses the case and the reply is a server error, but the balance is already 0 and no case or ledger entry exists | validate the case before taking the deposit, so that a refused submission changes nothing | high (not executed) | RescueController.SubmitAsWritten, RescueController.AsWrittenLosesDeposit | RescueController.Submit |
| backend/controllers/paymentController.js:79-93 | the amount is added to the balance and saved before the ledger entry is created, and only the entry refuses a negative amount | a validly signed verification with amount -5 on a balance of 100: the balance becomes 95, and the entry is refused so no ledger entry records it | refuse a negative amount before touching the wallet, so the balance always equals what the ledger replays to | medium (not executed) | PaymentController.VerifyAsWritten, PaymentController.AsWrittenNegativeAmount | PaymentController.Verify |
