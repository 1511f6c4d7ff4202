# Personal trainer dashboard: a Dafny model of its screen logic

The personal trainer dashboard is a React front end to a HAL/JSON REST
backend that stores customers and their trainings. It exists in three
revisions: the first (`personalTrainer_OSA_1`), the second
(`personalTrainer_OSA_2`) and the final one (`src`). Each screen keeps a
fetched collection, a search text and a sort configuration, and shows a
projection of the three. Each screen also has handlers that send one request
to the backend, record an error text, open or close dialogs, and refetch the
collection after a success.

This project models that logic as pure functions and proves what the screens
promise:

- **Text and numbers.** `Text` and `Numbers` hold the JavaScript operations
  the screens rely on:
  - `toLowerCase` on ASCII letters, `includes` and `trim`;
  - `split('/').pop()`;
  - decimal `parseInt`, `Number` on the texts a select hands back, and
    `String(n)`;
  - truthiness, and `===` with `NaN`.
- **Records.** `Records` holds the customer and training records in the
  shapes the revisions use. It also holds the id a record derives from its
  `_links.self.href`.
- **Sorting and listing.**
  - `Sorting` models the comparator every table passes to `Array.prototype.sort`.
  - A stable insertion sort stands in for the sort itself: `sort` must be
    stable (section 23.1.3.30 of ECMA-262, 2023 edition).
  - The insertion sort is proved sorted and a permutation of its input.
  - It is proved to be the only stable sorted rearrangement of its input.
  - On a column without ties, the descending order is proved to be the
    ascending one reversed.
  - `Listing` holds the projection shared by every list screen: search, then
    sort.
- **Gateway.** `Gateway` holds the requests a screen sends and the responses
  it gets back. A handler's result is an `Outcome`: the new screen state, the
  request it sent if any, and whether it refetched.
- **One module per screen and dialog.**
  - Customer lists: `CustomerListOsa1`, `CustomerListOsa2`, `CustomerList`.
  - Training lists: `TrainingListOsa1`, `TrainingListOsa2`, `TrainingList`.
  - Dialogs: `AddTrainingDialog`, `AddCustomerDialog`, `EditCustomerDialog`.
  - `DeleteConfirmation`: the pending delete that both list screens of the
    second revision keep while their confirmation dialog is open.
  - Other pages: `StatsPage`, `CalendarView`.
  - The second revision's `AddCustomerDialog.tsx` runs the same form logic as
    the final one. `AddCustomerDialog` models both.
  - The second revision's own `EditCustomerDialog.tsx` is not part of this
    model. The final revision's dialog (`EditCustomerDialog`) stands in for it
    in `CustomerListOsa2.SaveEditTargetsOpenedCustomer`.

Inputs that the code gets from outside become parameters:

- The response of each `fetch` is a `Response`: an HTTP status together with
  whether its body parses as JSON, or a network failure.
- A training's date is an integer number of minutes.
- `dayjs(...).format('DD.MM.YYYY')` is a function parameter `format`.
- The Helsinki time-zone conversion is a parameter `toLocal`. It returns
  nothing when it throws.
- The current instant `dayjs().toISOString()` is a parameter `now`.
- The answer to `window.confirm` is a boolean.

## Where the code departs from its evident intent

The model follows the code in each case below.

- **Final revision, customer and training save.** The comment above the final
  revision's `handleAddTraining` says the dialog is to close only on success
  (`src/components/TrainingList.tsx:126`). Its `handleSave` and
  `handleAddTraining` nevertheless close the dialog whatever happens, because
  `addCustomer`, `updateCustomer` and `addTraining` catch their own failures
  and never rethrow (`src/components/CustomerList.tsx:140-152`,
  `src/components/TrainingList.tsx:127-136`). `AddTrainingDialog`'s own
  `handleSave` calls `onClose` right after `onSave` in every case. The second
  revision, by contrast, closes its add dialog only on success, as its comment
  says (`personalTrainer_OSA_2/src/components/CustomerList.tsx:135`).
- **Second revision, failures.** The second revision checks no HTTP status:
  `api.ts` calls `fetch` and never reads `response.ok`. Its deletes therefore
  fail only when the network fails (`Gateway.ServiceRejects`). Adding a
  customer, updating one and adding a training end in `response.json()`, so
  they also fail on any reply whose body is not JSON, whatever its status
  (`Gateway.ReadRejects`).
- **First revision, phone search.** The first revision's search lower-cases
  the first name, last name, email and city before matching, but matches the
  phone number as typed
  (`personalTrainer_OSA_1/src/components/CustomerList.tsx:59-65`,
  `CustomerListOsa1.PhoneSearchIsCaseSensitive`). A search text is
  lower-cased, so a phone number holding an upper-case letter is never found
  by its own text.
- **Final revision, edit dialog.** A listed customer whose `id` is 0 or absent
  is handed to `handleSave` without an id that counts. Editing such a
  customer therefore posts a new customer instead of updating it
  (`CustomerList.EditSaveTargetsCustomer`).

## Model

| member | source | states |
|---|---|---|
| `Text.TrimEmptyIffBlank` | src/components/AddTrainingDialog.tsx:64 | `trim()` leaves the empty, falsy text exactly when the activity is nothing but white space |
| `Text.ContainsAt` | personalTrainer_OSA_2/src/components/CustomerList.tsx:76 | `includes` holds exactly when the term occurs at some index of the text |
| `Numbers.ParseIntRoundTrip` | src/components/AddTrainingDialog.tsx:95 | `parseInt(String(n))` gives back `n` for every integer, negative ones included |
| `Numbers.ParseIntLeadingInteger` | src/components/TrainingList.tsx:64 | `parseInt` reads only the leading integer: `String(n)` followed by any text that does not start with a digit parses to `n` |
| `Numbers.ParseIntNoDigits` | src/components/AddTrainingDialog.tsx:95 | a text that starts with neither blank, sign nor digit parses to `NaN`, which the duration handler then replaces by 0 |
| `Numbers.NumberOfRoundTrip` | src/components/AddTrainingDialog.tsx:109 | `Number(String(n))` is `n`: a select whose option values are ids hands back the chosen id |
| `Records.HrefIdOfResource` | src/components/TrainingList.tsx:64 | a customer whose self link ends in `/<n>` gets the id `n` |
| `Records.HrefIdDefaultsToZero` | src/components/TrainingList.tsx:64 | a customer without a link, or with a link ending in '/', gets the id 0 through the '0' default |
| `Sorting.RequestSort` | src/components/CustomerList.tsx:123-129 | a header click always sorts by that column, descending exactly when it was already the ascending sort column |
| `Sorting.RequestSortRepeatedFlips` | src/components/TrainingList.tsx:209-215 | each further click on the same header flips the direction, so two more clicks restore the configuration |
| `Sorting.LessStrictTotal` | src/components/CustomerList.tsx:114-115 | JavaScript's `<` on two strings or on two numbers is irreflexive, transitive and total, so the comparator is consistent |
| `Sorting.CompareDescendingNegates` | src/components/CustomerList.tsx:111-117 | the descending comparator is the ascending one negated; swapped arguments negate the result; 0 means equal values |
| `Sorting.BeforeTotalOrder` | personalTrainer_OSA_1/src/components/CustomerList.tsx:69-75 | in either direction, "the comparator does not ask to swap" is a reflexive, total, antisymmetric and transitive order |
| `Sorting.InsertSorted` | src/components/CustomerList.tsx:111 | inserting one row into sorted rows keeps them sorted |
| `Sorting.SortBy` | src/components/CustomerList.tsx:111 | the sort rearranges the rows without adding or losing any (equal multisets) |
| `Sorting.SortBySorted` | src/components/CustomerList.tsx:111-117 | after the sort every pair of rows is in comparator order |
| `Sorting.SortByStable` | src/components/CustomerList.tsx:111-117 | rows with equal sort values keep their fetched order, as a stable `Array.prototype.sort` must |
| `Sorting.StableSortUnique` | src/components/TrainingList.tsx:176-203 | two sorted orderings that agree on the order of every group of equal values are the same ordering |
| `Sorting.SortByIsTheStableSort` | src/components/TrainingList.tsx:176-203 | any sorted, stable rearrangement of the rows is the one the model computes, so the model is the engine's stable sort |
| `Sorting.DescendingIsReverse` | personalTrainer_OSA_2/src/components/CustomerList.tsx:86-92 | on a column without ties, the descending order is exactly the ascending order reversed |
| `Listing.Search` | src/components/TrainingList.tsx:166-171 | `filter` keeps exactly the matching rows, each as often as in the collection, as a subsequence of the collection |
| `Listing.SearchIdempotent` | personalTrainer_OSA_1/src/components/CustomerList.tsx:57-66 | searching the result again with the same term changes nothing |
| `Listing.ProjectSpec` | src/components/CustomerList.tsx:100-120 | the table shows exactly the matching rows of the fetched list, each as often as fetched; it keeps the fetched order without a sort column, and is sorted and stable with one |
| `Listing.ProjectIdentity` | src/components/CustomerList.tsx:101-110 | with an empty search and no sort column the table shows the fetched list unchanged |
| `Listing.FilteredIdempotent` | src/components/CustomerList.tsx:102-109 | filtering the displayed rows again with the same search text changes nothing |
| `Listing.ProjectDescendingReverses` | src/components/CustomerList.tsx:110-118 | clicking a column without ties a second time shows the same rows in exactly the reverse order |
| `Gateway.DeleteFailedIffNotOk` | src/components/CustomerList.tsx:92 | the extra `status !== 204` test is redundant: 204 is a 2xx status, so a delete fails exactly when the response is not ok |
| `Gateway.ReadRejectsMore` | personalTrainer_OSA_2/src/services/api.ts:60-68 | a call ending in `response.json()` rejects whenever the network fails and also on any reply whose body is not JSON, such as an empty 201 or a 502 page, which a call awaiting only `fetch` accepts |
| `CustomerList.AnyValueMatchesIff` | src/components/CustomerList.tsx:104-108 | searching every value finds a customer exactly when one of its present fields, or its id, contains the lower-cased term |
| `CustomerList.ProcessedCustomers` | src/components/CustomerList.tsx:100-120 | the rows shown are exactly the customers with a matching value, each as often as fetched, sorted by the column with absent fields as '', ties in fetched order |
| `CustomerList.CsvHeaders` | src/components/CustomerList.tsx:165-181 | the export has one header per table column except the actions column, in table order, with the table's labels |
| `CustomerList.CsvData` | src/components/CustomerList.tsx:183-192 | the export has one row per displayed customer, in display order, with each header's field or '' |
| `CustomerList.CsvAgreesWithTable` | src/components/CustomerList.tsx:186-188 | an exported cell is the cell the table shows, except that an absent field is '' in the export and '-' in the table |
| `CustomerList.OpenDialog` | src/components/CustomerList.tsx:132-135 | opening the dialog remembers the customer to edit, or none for a new one |
| `CustomerList.CloseDialog` | src/components/CustomerList.tsx:136-139 | closing the dialog forgets the customer being edited |
| `CustomerList.HandleSave` | src/components/CustomerList.tsx:140-152 | a payload with a non-zero id is a PUT of that customer, any other a POST of the form; the error shows exactly when the response is not ok; the dialog always closes |
| `CustomerList.HandleDelete` | src/components/CustomerList.tsx:86-97 | a declined confirmation sends nothing; a confirmed one deletes that id, and the list refetches exactly when the response is ok |
| `CustomerList.EditSaveTargetsCustomer` | src/components/CustomerList.tsx:143-147 | editing a listed customer in the dialog updates that customer when its id is non-zero, and posts a new customer when it is 0 |
| `CustomerListOsa1.ProcessedCustomers` | personalTrainer_OSA_1/src/components/CustomerList.tsx:55-79 | the rows shown are exactly the customers matching on the names, email, city or phone, each as often as fetched, sorted by the raw field text, ties in fetched order |
| `CustomerListOsa1.SearchIgnoresAddress` | personalTrainer_OSA_1/src/components/CustomerList.tsx:59-65 | the street address, post code and link play no part in whether a customer is found |
| `CustomerListOsa1.PhoneSearchIsCaseSensitive` | personalTrainer_OSA_1/src/components/CustomerList.tsx:64 | a phone with an upper-case letter is missed by a search for that same text, although it matches once lower-cased |
| `CustomerListOsa2.NamedFieldsMatchIff` | personalTrainer_OSA_2/src/components/CustomerList.tsx:75-83 | a non-empty term finds a customer exactly when one of its present fields contains it; the `c.city &&` guards change no result |
| `CustomerListOsa2.ProcessedCustomers` | personalTrainer_OSA_2/src/components/CustomerList.tsx:70-95 | the rows shown are exactly the customers with a matching named field, sorted stably with absent fields as '' |
| `CustomerListOsa2.HandleSave` | personalTrainer_OSA_2/src/components/CustomerList.tsx:129-142 | adding always posts the form; the add dialog closes and the list refetches unless the call rejects (no network, or a reply body that is not JSON), in which case an error shows and the dialog stays open |
| `CustomerListOsa2.HandleSaveEdit` | personalTrainer_OSA_2/src/components/CustomerList.tsx:144-160 | an update is sent exactly when the customer has a link, to the id read from it; the edit dialog closes only when the call neither loses the network nor gets a reply body that is not JSON |
| `CustomerListOsa2.HandleDeleteConfirm` | personalTrainer_OSA_2/src/components/CustomerList.tsx:168-187 | with nobody pending nothing happens; otherwise a delete is sent exactly when the pending customer has a link, and the dialog closes and clears whatever the outcome |
| `DeleteConfirmation.Ask` | personalTrainer_OSA_2/src/components/CustomerList.tsx:163-166 | a delete click makes the clicked record the pending one and opens the confirmation, whatever was pending before |
| `DeleteConfirmation.Dismiss` | personalTrainer_OSA_2/src/components/CustomerList.tsx:189-192 | cancelling closes the confirmation and forgets the pending record |
| `CustomerListOsa2.HandlersKeepDeleteDialogConsistent` | personalTrainer_OSA_2/src/components/CustomerList.tsx:129-187 | the add, edit and delete handlers keep the confirmation open exactly while a customer is pending, and refetch only after a request they sent |
| `CustomerListOsa2.ConfirmDeletesClickedCustomer` | personalTrainer_OSA_2/src/components/CustomerList.tsx:163-192 | confirming right after a click deletes the clicked customer by the id in its link and closes the confirmation; confirming after a cancel does nothing |
| `CustomerListOsa2.SaveEditTargetsLinkedCustomer` | personalTrainer_OSA_2/src/components/CustomerList.tsx:148-150 | saving a customer whose link ends in `/<n>` sends `PUT /customers/<n>` |
| `CustomerListOsa2.SaveEditTargetsOpenedCustomer` | personalTrainer_OSA_2/src/components/CustomerList.tsx:305-310 | whatever is typed into the edit dialog, the update goes to the customer it was opened for, or nowhere when that customer has no link |
| `TrainingList.CustomersWithIds` | src/components/TrainingList.tsx:62-65 | each fetched customer keeps its names and link and gets the id parsed from the link |
| `TrainingList.FindCustomer` | src/components/TrainingList.tsx:88 | `find` returns the first customer whose id is `===` the wanted one, and nothing exactly when none is; `NaN` is found nowhere |
| `TrainingList.CustomerName` | src/components/TrainingList.tsx:150-157 | the name is the embedded customer's; otherwise that of the first listed customer whose id is `===` the training's `customerId`, as `find` returns it; otherwise "Tuntematon" |
| `TrainingList.UnknownIffNoCustomer` | src/components/TrainingList.tsx:150-157 | "Tuntematon" is shown exactly when no customer is embedded and none is listed with the training's id |
| `TrainingList.ProcessedTrainings` | src/components/TrainingList.tsx:160-206 | the rows shown are exactly the trainings whose name, activity, formatted date or duration contains the term, each as often as fetched, sorted by the column, ties in fetched order |
| `TrainingList.DateSortIsChronological` | src/components/TrainingList.tsx:185-197 | sorting by date lists the trainings chronologically, latest first when descending |
| `TrainingList.AddTraining` | src/components/TrainingList.tsx:84-106 | a training is posted exactly when the first listed customer with the chosen id (`find`) has a link, and then with that customer's link; otherwise nothing is sent and an error shows; the list refetches exactly after an ok response |
| `TrainingList.HandleAddTraining` | src/components/TrainingList.tsx:127-136 | the add dialog closes whatever the outcome, and otherwise the result is that of `addTraining` |
| `TrainingList.AddTrainingLinksChosenCustomer` | src/components/TrainingList.tsx:62-98 | when every link is `<base>/<n>` for distinct `n`, choosing id `n` posts the training with the link of customer `n` |
| `TrainingList.NaNCustomerNeverPosts` | src/components/TrainingList.tsx:88-90 | a `NaN` customer id finds no customer, so nothing is posted and the error shows |
| `TrainingList.HandleDelete` | src/components/TrainingList.tsx:108-147 | a declined confirmation sends nothing; a confirmed one deletes that training, and the list refetches exactly when the response is ok |
| `TrainingListOsa1.ProcessedTrainings` | personalTrainer_OSA_1/src/components/TrainingList.tsx:61-93 | the rows shown are exactly the trainings whose customer name, activity or formatted date contains the term, each as often as fetched, sorted by the column, ties in fetched order |
| `TrainingListOsa1.CustomerSortOrdersNames` | personalTrainer_OSA_1/src/components/TrainingList.tsx:72-89 | sorting by customer ascending never puts a name before one that is smaller in string order |
| `TrainingListOsa2.DialogCustomers` | personalTrainer_OSA_2/src/components/TrainingList.tsx:167-171 | the dialog offers each customer once, in order, with the id parsed from its link |
| `TrainingListOsa2.HandleAddTrainingAsWritten` | personalTrainer_OSA_2/src/components/TrainingList.tsx:56-77 | as written, a training is posted exactly when some customer's link merely contains `/customers/<id>` |
| `TrainingListOsa2.AsWrittenPostsForMissingCustomer` | personalTrainer_OSA_2/src/components/TrainingList.tsx:60-68 | with only customer 12 listed, choosing id 1 posts a training for `/customers/1`, a customer whose link names a different id |
| `TrainingListOsa2.SubstringCheckAdmitsOne` | personalTrainer_OSA_2/src/components/TrainingList.tsx:60 | the link of customer 12 contains `/customers/1` although it names the id 12 |
| `TrainingListOsa2.HandleAddTraining` | personalTrainer_OSA_2/src/components/TrainingList.tsx:56-77 | corrected: a training is posted exactly when some customer's link names the chosen id, with the link built from that id; the list refetches only when the post neither loses the network nor gets a reply body that is not JSON |
| `TrainingListOsa2.AcceptsExactlyDialogChoices` | personalTrainer_OSA_2/src/components/TrainingList.tsx:60-63 | corrected: a training is posted exactly when the chosen id is one the dialog offers |
| `TrainingListOsa2.CustomerUrlNamesId` | personalTrainer_OSA_2/src/components/TrainingList.tsx:68 | the customer link built from an id yields that id back |
| `TrainingListOsa2.PostedLinkNamesChosenCustomer` | personalTrainer_OSA_2/src/components/TrainingList.tsx:64-69 | corrected: the posted link names the chosen customer |
| `TrainingListOsa2.HandleDeleteConfirm` | personalTrainer_OSA_2/src/components/TrainingList.tsx:84-100 | with nothing pending nothing happens; otherwise the pending training is deleted by id and the dialog closes and clears whatever the outcome |
| `TrainingListOsa2.HandlersKeepDeleteDialogConsistent` | personalTrainer_OSA_2/src/components/TrainingList.tsx:56-100 | adding a training and confirming a delete keep the confirmation open exactly while a training is pending |
| `TrainingListOsa2.ConfirmDeletesClickedTraining` | personalTrainer_OSA_2/src/components/TrainingList.tsx:79-105 | confirming right after a click deletes the clicked training by its id and closes the confirmation; confirming after a cancel does nothing |
| `AddTrainingDialog.Reset` | src/components/AddTrainingDialog.tsx:39-54 | opening with customers to offer starts a fresh form for the first customer, with no messages; otherwise the dialog keeps its state |
| `AddTrainingDialog.ValidIff` | src/components/AddTrainingDialog.tsx:56-82 | a form is valid exactly when the activity is not blank, the duration is positive, the date is set, and the customer id is neither 0 nor `NaN` |
| `AddTrainingDialog.ErrorsAreIndependent` | src/components/AddTrainingDialog.tsx:64-78 | each field's message depends on that field alone |
| `AddTrainingDialog.Save` | src/components/AddTrainingDialog.tsx:84-89 | a valid form is handed on unchanged and the dialog closes; an invalid one is not handed on, and its messages are shown |
| `AddTrainingDialog.FreshFormRejected` | src/components/AddTrainingDialog.tsx:41-46 | a freshly reset form cannot be saved: its activity is empty and its duration is 0 |
| `AddTrainingDialog.InputChange` | src/components/AddTrainingDialog.tsx:91-97 | the activity takes the typed text; the duration takes the parsed integer, or 0 when the text does not parse; no other field changes |
| `AddTrainingDialog.DurationInputRoundTrip` | src/components/AddTrainingDialog.tsx:95 | typing the digits of a number into the duration sets exactly that number |
| `AddTrainingDialog.DateChangeValidation` | src/components/AddTrainingDialog.tsx:99-106 | a picked instant sets the date, which clears the date's message; clearing the picker keeps the form and every message; no other message ever changes |
| `AddTrainingDialog.CustomerChange` | src/components/AddTrainingDialog.tsx:108-114 | choosing a customer changes only the customer id |
| `AddTrainingDialog.CustomerChangeRoundTrip` | src/components/AddTrainingDialog.tsx:109 | choosing the option of a customer sets exactly that customer's id |
| `AddCustomerDialog.FormOf` | src/components/AddCustomerDialog.tsx:32-40 | the edit form shows every field of the customer, with '' for an absent one |
| `AddCustomerDialog.OnOpen` | src/components/AddCustomerDialog.tsx:29-45 | opening for a customer fills the form from it; opening without one empties it; while closed the form keeps its content |
| `AddCustomerDialog.Change` | personalTrainer_OSA_2/src/components/AddCustomerDialog.tsx:59-61 | typing sets the named field to the text and leaves every other field as it was |
| `AddCustomerDialog.ChangeLaws` | src/components/AddCustomerDialog.tsx:47-49 | typing a field's own text back changes nothing, and the last text typed into a field wins |
| `AddCustomerDialog.Save` | personalTrainer_OSA_2/src/components/AddCustomerDialog.tsx:63-71 | the payload is the form, with an id exactly when the dialog edits a customer, and then that customer's id |
| `AddCustomerDialog.OpenThenSave` | src/components/AddCustomerDialog.tsx:29-58 | opening for a customer and saving without typing hands back that customer's fields and id |
| `AddCustomerDialog.WithoutInitialDataAlwaysAdds` | personalTrainer_OSA_2/src/components/CustomerList.tsx:299-303 | a dialog rendered without `initialData` always opens empty and always adds, never updates |
| `EditCustomerDialog.Sync` | src/components/EditCustomerDialog.tsx:25-29 | a new customer replaces the copy being edited; `null` leaves the previous copy in place |
| `EditCustomerDialog.Edit` | src/components/EditCustomerDialog.tsx:44-92 | typing into a field sets it, making an optional field present; every other field, the id and the link stay as they were |
| `EditCustomerDialog.ShownAfterEdit` | src/components/EditCustomerDialog.tsx:67-68 | an input shows the text last typed into it, and typing into one input leaves every other input's text alone |
| `EditCustomerDialog.Save` | src/components/EditCustomerDialog.tsx:31-36 | the copy is handed on and the dialog closes exactly when there is a copy |
| `EditCustomerDialog.SavedKeepsIdentity` | src/components/EditCustomerDialog.tsx:25-36 | whatever is typed, the saved record keeps the id and the link of the customer the dialog was given |
| `StatsPage.Activities` | src/components/StatsPage.tsx:31-32 | the chart's activities are distinct, and they are exactly the activities of the trainings |
| `StatsPage.ChartData` | src/components/StatsPage.tsx:31-35 | one bar per activity, holding the minutes of that activity's trainings |
| `StatsPage.ChartConservesMinutes` | src/components/StatsPage.tsx:29-35 | the bars add up to the minutes of all trainings, so the grouping loses and double-counts nothing |
| `CalendarView.NameOf` | src/components/CalendarView.tsx:108 | the customer name is the embedded customer's full name, which is never empty, or '' without one |
| `CalendarView.Title` | src/components/CalendarView.tsx:109 | the title is the activity, followed by the customer's name in parentheses when there is a customer |
| `CalendarView.TitleIsActivityIff` | src/components/CalendarView.tsx:108-109 | a title is the bare activity exactly when no customer is embedded |
| `CalendarView.EventOf` | src/components/CalendarView.tsx:104-121 | an event exists exactly when the date converts; it starts at the converted time, lasts the duration and keeps the training |
| `CalendarView.Events` | src/components/CalendarView.tsx:101-124 | the events' trainings are exactly what filtering the trainings by a convertible date keeps, in the same order and with the same repetitions, each event made from its own training |
| `CalendarView.EventsCoverTrainings` | src/components/CalendarView.tsx:101-124 | every training whose date converts has its event on the calendar, and every event comes from a listed training |
| `CalendarView.EventsWhenAllConvert` | src/components/CalendarView.tsx:101-124 | when every date converts, the calendar has one event per training, in the trainings' order |
| `CalendarView.EventsLastTheirDuration` | src/components/CalendarView.tsx:106-107 | every event ends its training's duration after it starts |
| `CalendarView.SelectedCustomerName` | src/components/CalendarView.tsx:129-131 | the pop-up names the embedded customer, or says 'Ei asiakasta' without one |
| `CalendarView.SelectedNameInTitle` | src/components/CalendarView.tsx:108-131 | the pop-up names the same customer the event's title names |

## Findings

| source | as written | input that shows it | evidently intended | confidence | as-written member | corrected member |
|---|---|---|---|---|---|---|
| personalTrainer_OSA_2/src/components/TrainingList.tsx:60-68 | the customer check accepts any customer whose link contains `/customers/<id>` as a substring, and the training is posted with a link built from the chosen id | only customer 12 is listed and id 1 is chosen: `.../customers/12` contains `/customers/1`, and the training is posted for `/customers/1` | accept the id only when some customer's link names exactly that id | not executed | `TrainingListOsa2.HandleAddTrainingAsWritten`, `TrainingListOsa2.AsWrittenPostsForMissingCustomer` | `TrainingListOsa2.HandleAddTraining`, `TrainingListOsa2.AcceptsExactlyDialogChoices` |

## Left out

- **Backend traffic.**
  - The HTTP exchange, JSON and HAL decoding, and the internals of `api.ts`
    are left out. Each handler takes the response as an input and reports the
    request it would send.
  - The body of the customer `PUT` is left out. `Request.PutCustomer` records
    only the target id.
- **Fetching and refetching.**
  - The fetch handlers and their error texts are left out, and so is what a
    refetch returns. An `Outcome` says only whether a refetch happened.
  - The second revision's `loading` flag while a fetch is pending is left out.
  - `Promise.all` enrichment of the trainings in the second revision is left
    out, because it is fetch orchestration.
- **Concurrency and rendering.**
  - Concurrent interleaving of handlers and React's batching of state updates
    are left out. Each handler is modelled as one atomic step.
  - Rendering, styling, `ConfirmationDialog`, `Navbar`, the app routing and the
    CSV file download are left out: they are presentation.
- **Browser and library calls.**
  - `window.confirm` and `alert` are reduced to a boolean and a returned text.
  - `dayjs` formatting, ISO texts and the `Europe/Helsinki` conversion are
    parameters. The model does not check calendar arithmetic.
  - Lodash `groupBy` puts integer-like keys first in `Object.keys`. The model
    keeps every activity in first-occurrence order.
- **Strings and numbers.**
  - Lower-casing covers ASCII letters only; other Unicode case mappings are
    left out.
  - String comparison is by code point, not by UTF-16 code unit. The two
    orders differ only outside the Basic Multilingual Plane.
  - Hexadecimal `0x` prefixes, exponents and fractions in `parseInt` and
    `Number` are left out. `Number` of any other text is `NaN`.
  - JavaScript numbers are unbounded integers here. Fractional durations are
    left out.
- **Sorting.**
  - Sort keys are the columns each table offers. The model does not cover
    comparing values of mixed types, because no column mixes them.
  - A field that is `null` rather than absent is left out.
- **Data as the backend sends it.**
  - `CustomerList.ProcessedCustomers`: `Object.values` of a backend record
    also yields its `_links` object, whose `String` is `[object Object]`. The
    model's search omits that value, so a term such as "object" is not
    modelled as matching every linked customer.
  - `CustomerListOsa2.SaveEditTargetsOpenedCustomer`: it uses the final
    revision's edit dialog in place of the second revision's own, which is not
    part of this model. That the second revision's dialog keeps the customer's
    link while editing is therefore not established.
  - `CustomerList.HandleSave`: the final revision types `Customer.id` as a
    number. The model takes the record as typed and does not model a backend
    record that lacks the id.
