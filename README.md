# Number-resource services: range load, number donation, mcdu-prefix load

This project models three workflows of a telecom number-resource service. Each one is a short decision procedure that reads and writes a set of repositories. The repositories are held in memory by one `Store` class (`store.dfy`). That class records every repository call, in order, in a ghost journal, so the model can state "no further lookup happens" and "these writes happen in this order".

- **Range load** (`VoipService.load`, `range_load.dfy`). Each candidate VoIP range goes through four checks. The chain stops at the first check that fails:
  1. no stored range of the same cn and prefix overlaps it;
  2. exactly one legacy (stfc) interval overlaps it, where 0 and more than 1 are different errors;
  3. its carrier code is registered;
  4. at least one mcdu-prefix record overlaps it.

  Only then is a new range with object type VOIP_RANGE saved. Every candidate gets one outcome, and the outcomes go to the merge step. The per-candidate decision is the function `AdmitOne`, and the batch is `AdmitAll`. `VoipService.Load` is a loop over a `Store` that is proved to compute exactly `AdmitAll`.
- **Number donation** (`BadExampleService.donate`, `donation.dfy`, with `padding.dfy`). The phone number is the prefix and the number, each written with `Integer.toString` and left-padded with '0' to width 4 (`StringUtils.leftPad`), then joined. The workflow then:
  - finds the installed number and locks it;
  - rejects a number whose parent id is null or empty with `UndefinedParentException`;
  - locks the parent range and applies `changeState(range, number, DONATED)`;
  - writes, in order, the donation history record, the changed range and the changed number.

  `DonateEffect` is the specification and `BadExampleService.Donate` the method. The method is split in three, following the nesting of the source's `flatMap` callbacks.
- **Mcdu-prefix load with history** (`Load.execute`, `mcdu_prefix_load.dfy`). Every request is validated first, and each validated request is then handled on its own:
  - a request whose code is not SUCCESS is passed through untouched;
  - otherwise it is looked up by its key (cn, cnl, prefix, initialMcdu, finalMcdu) and a history entry is built for it.

  The entry is CREATED with no before snapshot when the key is absent. It is UPDATED when the key is present, keeping the stored record's id and registration date. The after snapshot is saved, then the history entry. The batch always answers SUCCESS, with one response per request.

Several collaborators do not appear in the modelled files. They are handled as follows:
- `VoipOperations.changeState`, `mergeLoadResponse` and `McduPrefixValidate.validateLoad` are function parameters. The model states nothing about them beyond their types.
- Every `new Date()` is one clock parameter, `now`.
- The acting user (`GilVariables.CURRENT_USER`) is a constant of the `Load` class.

The repository queries are given explicit in-memory definitions, which are assumptions of the model:
- an interval query matches a record of the same cn and prefix whose closed interval overlaps the queried one;
- the installed-number query matches a number record with the given cn, prefix and number in state INSTALLED;
- a single-result query answers with some matching record. The methods return that answer as a ghost output `found`, and the specification functions take it as a parameter;
- `lockObject` is a plain read by id;
- `save` of a record with an id stores it under that id, and of one without an id inserts it under an id not used before.

Response messages are modelled as the error code whose message text they carry. That keeps the range load's ERR_RANGE_INTERSECT code with ERR_RANGE_NOT_EXIST_MCDU_PREFIX message exactly as written. A reactive result that completes without a value is `Completed`. With the logging callbacks left out, this happens when the installed number or a locked record is missing. As written, those callbacks dereference the missing value, so the reply would fail instead (see "## Left out").

The model follows the code in these points, which one might expect to be otherwise:
- A missing number does not fail with a dedicated not-found error. Without logging, the donation reply is empty.
- An uncovered mcdu prefix gets the code ERR_RANGE_INTERSECT, not an error code of its own.
- The donation writes are three separate saves. They are not one atomic transaction.
- The range load does not return its outcomes as an ordered list. They are merged by `mergeLoadResponse`.
- The donation history record holds the found number's fields, not a before/after snapshot.

## Model

| member | source | states |
|---|---|---|
| Padding.IntegerToString | goodpractices/BadExampleService.java:61-62 | `Integer.toString` is non-empty. It is digits for a non-negative value, and a minus sign followed by digits for a negative one |
| Padding.Digits | goodpractices/BadExampleService.java:61-62 | the decimal digits of a natural number are non-empty, and start with '0' exactly when the number is 0 |
| Padding.LeftPadShape | goodpractices/BadExampleService.java:61-62 | `leftPad(s, size, c)` has length max(size, \|s\|), ends with `s`, and is `c` before it |
| Padding.DigitsRoundTrip | goodpractices/BadExampleService.java:61-62 | reading back the decimal digits of n gives n |
| Padding.PaddedCodeRoundTrip | goodpractices/BadExampleService.java:61-62 | for 0..9999 the padded code is exactly four digits and denotes the value |
| Padding.PhoneNumberRoundTrip | goodpractices/BadExampleService.java:61-64 | for prefix and number in 0..9999 the phone number is eight digits; its first four give the prefix and its last four the number |
| Padding.PhoneNumberInjective | goodpractices/BadExampleService.java:61-64 | within four digits, different (prefix, number) pairs give different phone numbers |
| Padding.PhoneNumberAmbiguousBeyondWidth | goodpractices/BadExampleService.java:61-64 | past four digits the phone number no longer separates the two: (10001, 1) and (1000, 10001) both give "100010001" |
| Padding.LeftPad | goodpractices/BadExampleService.java:61-62 | `StringUtils.leftPad` on a non-null string; its shape is stated by Padding.LeftPadShape |
| Padding.PaddedCode | goodpractices/BadExampleService.java:61-62 | one padded half of the phone number; Padding.PaddedCodeRoundTrip states that it decodes back |
| Padding.PhoneNumber | goodpractices/BadExampleService.java:61-64 | the concatenated phone number; Padding.PhoneNumberRoundTrip, Padding.PhoneNumberInjective and Padding.PhoneNumberAmbiguousBeyondWidth state its meaning |
| Repository.Upsert | goodpractices/BadExemple.java:137 | a save puts the record at its key and leaves every other entry as it was. A record with an id is stored under that id; one without an id gets a key not used before. Ids stay in bounds |
| Repository.SaveResourceIn | goodpractices/BadExemple.java:137 | saving a VoIP record keeps every record under its own id and changes no other repository |
| Repository.SaveMcduPrefixIn | goodpractices/GoodExample.java:55 | saving an mcdu-prefix record keeps the repositories consistent and changes no other repository |
| Repository.CountStfcZero | goodpractices/BadExemple.java:107-113 | the legacy count is 0 exactly when no legacy interval overlaps the candidate |
| Repository.CountStfcMany | goodpractices/BadExemple.java:107-111 | the legacy count exceeds 1 exactly when two distinct legacy intervals overlap the candidate |
| Repository.CountMcduZero | goodpractices/BadExemple.java:131-134 | the mcdu-prefix count is 0 exactly when no mcdu-prefix record overlaps |
| Repository.Store.RangeExists | goodpractices/BadExemple.java:101 | answers whether a stored range of the same cn and prefix overlaps, and logs the call |
| Repository.Store.StfcCount | goodpractices/BadExemple.java:107 | answers the number of overlapping legacy intervals, and logs the call |
| Repository.Store.CarrierExists | goodpractices/BadExemple.java:115 | answers whether the carrier code is registered, and logs the call |
| Repository.Store.McduCount | goodpractices/BadExemple.java:131 | answers the number of overlapping mcdu-prefix records, and logs the call |
| Repository.Store.FindInstalledNumber | goodpractices/BadExampleService.java:66 | answers empty exactly when no installed number matches; otherwise answers a stored number that matches |
| Repository.Store.Lock | goodpractices/BadExampleService.java:69 | answers the record stored under the id, or empty |
| Repository.Store.FindMcduPrefix | goodpractices/GoodExample.java:45-48 | answers empty exactly when no record has the key; otherwise answers a stored record with that key |
| Repository.Store.SaveResource | goodpractices/BadExemple.java:137 | the repositories become exactly the save's result, stay consistent, and the save is logged |
| Repository.Store.SaveMcduPrefix | goodpractices/GoodExample.java:55 | the repositories become exactly the save's result, stay consistent, and the save is logged |
| Repository.Store.SaveDonationHistoric | goodpractices/BadExampleService.java:88 | the donation history gains the record at its end; nothing else changes |
| Repository.Store.SaveMcduHistoric | goodpractices/GoodExample.java:57 | the mcdu-prefix history gains the record at its end; nothing else changes |
| RangeLoad.ConstructedRange | goodpractices/BadExemple.java:119-120 | the range `new VoipRangeV1(...)` builds from a candidate; its fields are stated by RangeLoad.AdmissionSavesRange |
| RangeLoad.AdmittedRange | goodpractices/BadExemple.java:119-130 | the constructed range with type VOIP_RANGE; RangeLoad.AdmissionSavesRange and RangeLoad.OnlyAdmissionWrites state that it is what gets saved |
| RangeLoad.AdmitOne | goodpractices/BadExemple.java:100-148 | the decision for one candidate; its meaning is stated by the lemmas from RangeLoad.ExistingRangeRejects to RangeLoad.AdmitOnePreservesNoOverlap, and RangeLoad.VoipService.LoadOne is proved to compute it |
| RangeLoad.AdmitAll | goodpractices/BadExemple.java:99-151 | the batch has one outcome per candidate and keeps the repositories consistent |
| RangeLoad.ExistingRangeRejects | goodpractices/BadExemple.java:101-105 | an overlapping stored range gives ERR_RANGE_EXISTS after the one query. Nothing changes |
| RangeLoad.LegacyCountDecides | goodpractices/BadExemple.java:107-115 | without an overlap, a legacy count above 1 gives ERR_RANGE_INTERSECT and 0 gives ERR_RANGE_NOT_EXIST. Only a count of exactly 1 makes further calls |
| RangeLoad.LegacyCoverageDecides | goodpractices/BadExemple.java:107-113 | without an overlap, ERR_RANGE_NOT_EXIST comes exactly when no legacy interval matches, and ERR_RANGE_INTERSECT with its own message exactly when two distinct ones do |
| RangeLoad.UnknownCarrierRejects | goodpractices/BadExemple.java:115-142 | with one legacy match and an unregistered carrier, the outcome is ERR_CN_NOT_EXIST after three calls. Nothing changes |
| RangeLoad.MissingMcduPrefixRejects | goodpractices/BadExemple.java:131-135 | with no overlapping mcdu-prefix record, the code is ERR_RANGE_INTERSECT and the message is that of ERR_RANGE_NOT_EXIST_MCDU_PREFIX. Nothing changes |
| RangeLoad.RangeIntersectIsAmbiguous | goodpractices/BadExemple.java:110-135 | the code ERR_RANGE_INTERSECT arises exactly from many legacy matches or from a missing mcdu prefix. The message tells the two apart |
| RangeLoad.AdmissionSavesRange | goodpractices/BadExemple.java:118-138 | SUCCESS comes exactly when all four checks pass. The only change is then one new range under a new id, with the candidate's state, cnl, cn, prefix, start, end and availability date, the clock value and type VOIP_RANGE |
| RangeLoad.OnlyAdmissionWrites | goodpractices/BadExemple.java:103-143 | a rejection changes nothing and makes no write. An admission writes once, as its last call, saving the new range |
| RangeLoad.RejectionIsRepeatable | goodpractices/BadExemple.java:103-143 | a rejected candidate is rejected in the same way when tried again |
| RangeLoad.OverlappingLaterCandidateRejected | goodpractices/BadExemple.java:101-105 | after an admission, a later candidate of the same cn and prefix that overlaps it gets ERR_RANGE_EXISTS |
| RangeLoad.DisjointLaterCandidateUnaffected | goodpractices/BadExemple.java:101-137 | after an admission, a candidate that does not overlap it gets the outcome it would have had without it |
| RangeLoad.AdmitOnePreservesNoOverlap | goodpractices/BadExemple.java:101-137 | one candidate keeps stored ranges of the same cn and prefix free of overlaps |
| RangeLoad.AdmitAllPreservesNoOverlap | goodpractices/BadExemple.java:99-151 | a whole batch, processed in order, keeps the stored ranges free of overlaps |
| RangeLoad.AdmitAllAddsOneRangePerSuccess | goodpractices/BadExemple.java:99-151 | the batch adds exactly one VoIP record per SUCCESS outcome, keeps existing ids and changes no other repository |
| RangeLoad.SingleCandidateExample | goodpractices/BadExemple.java:97-153 | one covered candidate against an empty range store gives one SUCCESS and one stored range |
| RangeLoad.VoipService.LoadOne | goodpractices/BadExemple.java:100-148 | the imperative cascade gives exactly the decision's outcome, repositories and calls |
| RangeLoad.VoipService.LoadNext | goodpractices/BadExemple.java:99-100 | one turn of the loop extends the processed prefix by one candidate |
| RangeLoad.VoipService.Load | goodpractices/BadExemple.java:97-153 | the loop produces the batch's outcomes, repositories and calls. There is one outcome per candidate, and the response is the merge of the outcomes |
| Donation.DonationHistoric | goodpractices/BadExampleService.java:73-74 | the donation history record; Donation.DonationHistoricRecord states its fields |
| Donation.DonateLocked | goodpractices/BadExampleService.java:76-96 | the donation after the number is locked; Donation.LockedSucceeds states its meaning, and Donation.BadExampleService.DonateLockedNumber is proved to compute it |
| Donation.DonateFound | goodpractices/BadExampleService.java:68-97 | the donation after the number is found; Donation.BadExampleService.DonateFoundNumber is proved to compute it |
| Donation.DonateEffect | goodpractices/BadExampleService.java:59-100 | the whole donation; the lemmas from Donation.NoInstalledNumberCompletesEmpty to Donation.DonationStoresChangedNumber state its meaning, and Donation.BadExampleService.Donate is proved to compute it |
| Donation.DonationWrites | goodpractices/BadExampleService.java:88-93 | the three saves keep the repositories consistent |
| Donation.NoInstalledNumberCompletesEmpty | goodpractices/BadExampleService.java:66-68 | with no installed number, the reply is empty after the one query. Nothing changes |
| Donation.FirstLockReturnsFoundNumber | goodpractices/BadExampleService.java:69-72 | the first lock is on the found number's id and returns that number |
| Donation.UndefinedParentWritesNothing | goodpractices/BadExampleService.java:76-80 | the reply is UndefinedParentException exactly when the found number's parent id is null or empty. It is then given after the query and the one lock, with no write and no change |
| Donation.OnlySuccessWrites | goodpractices/BadExampleService.java:66-98 | every reply other than a value leaves the repositories unchanged and makes no write |
| Donation.LockedSucceeds | goodpractices/BadExampleService.java:76-96 | after the number is locked, a value comes exactly when the parent id is set and locks a range. The calls are then the parent lock and the three writes, in order |
| Donation.DonationWritesInOrder | goodpractices/BadExampleService.java:66-96 | the donation succeeds exactly when the parent locks a range. The calls are then: the query, the number lock, the parent lock, and the history, range and number saves. `changeState` gets the locked range, the number and DONATED, and the reply is SUCCESS wrapping the changed number |
| Donation.ParentNotARangeFailsCast | goodpractices/BadExampleService.java:82-85 | a parent id that locks a number fails the cast to a range |
| Donation.DonationHistoricRecord | goodpractices/BadExampleService.java:61-74 | on success, for any prefix and number, the history gains one record at its end. It holds the found number's cn, cnl, prefix and number, the user, the eot code, the fixed note, the clock value and the padded phone number. For a prefix and a number in 0..9999 that phone number is eight digits that give the prefix and the number back |
| Donation.DonationStoresChangedNumber | goodpractices/BadExampleService.java:85-93 | on success, the changed number is stored, under its own id when it has one. The repositories stay consistent and the mcdu-prefix ones are untouched |
| Donation.BadExampleService.Donate | goodpractices/BadExampleService.java:59-100 | the method gives exactly the specification's reply, repositories and calls, for the answer its query gave |
| Donation.BadExampleService.DonateFoundNumber | goodpractices/BadExampleService.java:68-97 | the part after the number is found matches its specification |
| Donation.BadExampleService.DonateLockedNumber | goodpractices/BadExampleService.java:76-96 | the part after the number is locked matches its specification |
| McduPrefixLoad.CreateMcduPrefix | goodpractices/GoodExample.java:62-71 | a record built from the payload and the given id and dates; McduPrefixLoad.HistoricCopiesActual states that it carries the payload's fields |
| McduPrefixLoad.NewHistoric | goodpractices/GoodExample.java:83-89 | a history entry built from an after snapshot; McduPrefixLoad.HistoricCopiesActual states what it copies |
| McduPrefixLoad.CreateHistoric | goodpractices/GoodExample.java:73-81 | CREATED or UPDATED history entry; McduPrefixLoad.AbsentKeyCreates and McduPrefixLoad.PresentKeyUpdates state both cases |
| McduPrefixLoad.SaveEffect | goodpractices/GoodExample.java:54-60 | the two saves and the answer; McduPrefixLoad.ValidItemSavesThenRecords states them, and McduPrefixLoad.Load.Save is proved to compute it |
| McduPrefixLoad.ExecuteItem | goodpractices/GoodExample.java:41-52 | the handling of one validated request; its meaning is stated by the lemmas from McduPrefixLoad.InvalidItemPassesThrough to McduPrefixLoad.ItemResultIsItemResponse, and McduPrefixLoad.Load.ExecuteOne is proved to compute it |
| McduPrefixLoad.LoadEffect | goodpractices/GoodExample.java:30-38 | the whole load; McduPrefixLoad.LoadAnswersEveryRequest states its answer, and McduPrefixLoad.Load.Execute is proved to compute it |
| McduPrefixLoad.ExecuteAll | goodpractices/GoodExample.java:35-36 | processing the validated requests gives one response per request |
| McduPrefixLoad.InvalidItemPassesThrough | goodpractices/GoodExample.java:42-44 | a request whose code is not SUCCESS is answered unchanged, with no lookup, no save and no change |
| McduPrefixLoad.HistoricCopiesActual | goodpractices/GoodExample.java:73-88 | a history entry has operation MCDU_PREFIX_LOAD and the acting user. It copies its id, cn, cnl, prefix, mcdus, eot and audited fields from its after snapshot, which carries the payload's fields |
| McduPrefixLoad.ValidItemSavesThenRecords | goodpractices/GoodExample.java:45-59 | a valid request makes three calls: lookup, save of the after snapshot, history append. Exactly one entry joins the history, and the answer is SUCCESS with the original payload |
| McduPrefixLoad.AbsentKeyCreates | goodpractices/GoodExample.java:45-77 | with the key absent, the entry is CREATED, with no before snapshot, no id, registration date now and no update date. The record is inserted under a new id |
| McduPrefixLoad.PresentKeyUpdates | goodpractices/GoodExample.java:45-80 | with the key present, the entry is UPDATED and its before snapshot is the stored record. The stored id and registration date are kept, the update date is now and the other two dates are cleared. The stored record is replaced in place |
| McduPrefixLoad.SavedUnderKey | goodpractices/GoodExample.java:45-57 | a valid request stores a record with its key, under an id that is either new or held that key |
| McduPrefixLoad.ExecuteItemKeepsKeys | goodpractices/GoodExample.java:45-57 | one request keeps the repositories consistent and keys unique, loses no key, and leaves its own key present |
| McduPrefixLoad.ItemResultIsItemResponse | goodpractices/GoodExample.java:41-59 | a request's answer depends on the request alone: an invalid request is returned as it is, a valid one as SUCCESS with its payload, whatever the repositories hold |
| McduPrefixLoad.ResponsesAreItemwise | goodpractices/GoodExample.java:35-38 | the i-th response of the batch is the request-only answer for the i-th validated request |
| McduPrefixLoad.HistoryGrowsPerValidItem | goodpractices/GoodExample.java:35-57 | the history grows by exactly the number of valid requests, keeps its old entries, and the VoIP side is untouched |
| McduPrefixLoad.ExecuteAllKeepsKeys | goodpractices/GoodExample.java:35-57 | over a batch with lawful lookup answers, the repositories stay consistent, keys stay unique, no key is lost, and every valid request's key is present at the end |
| McduPrefixLoad.LoadAnswersEveryRequest | goodpractices/GoodExample.java:30-38 | the load answers SUCCESS whatever the item codes. It holds one response per request, in its position: the validator's answer for an invalid request, SUCCESS with the payload for a valid one |
| McduPrefixLoad.Load.Execute | goodpractices/GoodExample.java:30-33 | the method gives exactly the load's answer, repositories and calls, for the answers its lookups gave |
| McduPrefixLoad.Load.ExecuteResponses | goodpractices/GoodExample.java:35-39 | the loop over the validated requests computes the batch |
| McduPrefixLoad.Load.ExecuteNext | goodpractices/GoodExample.java:36 | one turn of that loop extends the processed prefix by one request |
| McduPrefixLoad.Load.ExecuteOne | goodpractices/GoodExample.java:41-52 | one request gives exactly the item's answer, repositories and calls, against a lawful lookup answer |
| McduPrefixLoad.Load.Save | goodpractices/GoodExample.java:54-60 | the after snapshot is saved first, then the history entry; the answer is SUCCESS with the payload |

## Left out

- Reactive composition (`Flux.flatMap`, `collectList`) is not modelled. `flatMap` does not keep items in order and does not serialise them against each other, but every batch here is processed one item after the other in input order. Output order and detection of overlaps within one batch are properties of that sequential model only. The same holds for unique keys within one mcdu-prefix batch (McduPrefixLoad.ExecuteAllKeepsKeys): under `flatMap`, two requests with the same key can both find it absent and both insert it.
- Logging (`doOnSuccess`, `log.info`, `log.error`) is left out, including the callbacks at BadExampleService.java lines 67, 70 and 83. As written, these dereference the value they log, so an empty answer from the installed-number query or from either lock fails with a NullPointerException. The model instead completes the reply empty (`Completed`). Spring wiring is left out too.
- Optimistic-lock conflicts, retries and back-off are left out: `lockObject` is a plain read by id.
- Transactions are left out. The donation's three writes are separate saves, and the model claims no all-or-nothing behaviour.
- `save` is taken not to modify the record it is given. GoodExample.java lines 55-57 save the history entry's after snapshot and then the history entry, which holds that same object. A store that writes the generated id back into its argument would give a CREATED history entry an id. McduPrefixLoad.AbsentKeyCreates states the entry built before any save, whose snapshot has no id.
- Repository internals are left out: the query implementations are the in-memory definitions listed above.
- `VoipOperations.changeState` is a parameter with no properties, and its fourth argument (null) is not modelled.
- `mergeLoadResponse` is a parameter with no properties.
- `McduPrefixValidate.validateLoad` is a total function to a response. An empty or failing validation is not modelled.
- Every `new Date()` is the one clock parameter `now`, so all dates within one call are equal.
- Java `Integer` nulls and the `NullPointerException`s they would raise are not modelled: numbers are unbounded integers.
- Java `int` width is not modelled.
- Padding.LeftPadShape: the large-padding branch of `StringUtils.leftPad` (more than 8192 pad characters) gives the same result and is not modelled separately.
- Message texts are not modelled; a message is the error code it belongs to.
- Record versions and the range's allocation bookkeeping are not modelled.
- The descriptive mcdu-prefix fields are folded into one payload value that is copied through unchanged. Only the audited fields the history entry copies are named.
- Reply values in the donation are `Completed` where the reactive result would be empty. Optimistic-lock exceptions, and other store failures, are not part of the outcomes.
