# YieldVision front-end logic, modelled in Dafny

YieldVision is a client-side web application with no backend. Its logic sits
in three places, and this project models those three:

- **The mock session provider** (`src/hooks/useAuth.tsx`). It holds a fixed
  directory of three demonstration accounts, the signed-in user, the
  persisted `"user"` storage slot and a loading flag. Its operations are
  initialise-from-storage, `login`, `register` and `logout`. The pages show
  their content only when `isAuthenticated` holds.
- **The upload page** (`src/pages/Upload.tsx`). A chosen file is accepted
  only if it is at most 5 MB and its last dot-separated segment, lower-cased,
  is `csv`. A simulated upload advances a progress counter by 5 per interval
  callback and records the file on completion. Recorded files can be deleted
  by position. The page also capitalises each file's type label and picks a
  footer message by role.
- **The prediction page** (`src/pages/Predict.tsx`). Its form schema is a
  set of per-field range rules, with a default record. Submission stores the
  validated input together with a yield and a confidence drawn from
  `Math.random()`.

Every operation is a pure function over an immutable record state.
Rejections are values: the `Outcome` of a settled promise, or a `Result`
that carries the failing fields. One interval callback is one `Tick`. The
persisted storage slot is an `Option<User>`, because the source's
serialisation round-trips exactly. Each call to `Math.random()` becomes a
parameter in [0, 1).

Files:
- `wrappers.dfy` holds `Option`, `Result` and `Outcome`.
- `text.dfy` holds the JavaScript string operations the pages use:
  `split`/`pop`, ASCII case mapping, capitalisation, and decimal numerals.
- `auth.dfy`, `upload.dfy` and `predict.dfy` hold one module per source
  file.

Two behaviours of the code are worth stating plainly:
- Registration does **not** append the new account to the directory
  (`src/hooks/useAuth.tsx:108-111` only sets the user and the storage slot).
  So the new identifier is always the directory's length plus one ("4"),
  and the same email can be registered any number of times.
- `login` and `register` run to completion without any delay
  (`src/hooks/useAuth.tsx:65-119` awaits nothing). The model keeps only the
  state each one settles in.

## Model

| member | source | states |
|---|---|---|
| Auth.Mount | src/hooks/useAuth.tsx:52-54 | Before the mount effect runs, the provider has the demonstration directory, no user, is loading, and keeps whatever the storage slot held |
| Auth.Message | src/hooks/useAuth.tsx:74-97 | A failed login throws "Invalid credentials" and a failed registration "User already exists"; the message alone tells the two rejections apart |
| Auth.Initialize | src/hooks/useAuth.tsx:56-63 | The mount effect adopts the stored user when there is one and keeps the current user otherwise; loading is always false afterwards; storage and directory are not touched |
| Auth.InitializeRestoresSlot | src/hooks/useAuth.tsx:53-63 | Starting from a fresh mount, initialisation leaves the user equal to the stored slot, memory agreeing with storage, loading false, and the session authenticated exactly when the slot was present |
| Auth.FindLogin | src/hooks/useAuth.tsx:70-72 | `find` yields no index exactly when no entry matches both email and password exactly; otherwise it yields the first matching index |
| Auth.Login | src/hooks/useAuth.tsx:65-88 | Login succeeds iff some entry has exactly that email and that password. On success, user and storage both hold the first matching entry without its password (`WithoutPassword`, the rest-destructuring at line 78). On failure, the error is InvalidCredentials, with message "Invalid credentials", and nothing changes except loading. Loading is false afterwards, and the directory is unchanged |
| Auth.Register | src/hooks/useAuth.tsx:90-119 | Registration fails with UserAlreadyExists (message "User already exists") iff the email occurs in the directory (`EmailTaken`, the `some` test at line 95), and then nothing changes except loading. On success, user and storage both hold {given name, email, role, avatar ""}; the id is the canonical numeral (digits only, no leading zero) whose value is the directory length + 1, "4" for the demonstration directory. The directory is never extended, and loading is false afterwards |
| Auth.Logout | src/hooks/useAuth.tsx:121-125 | After logout nobody is signed in and the storage slot is empty, whatever the prior state; the directory and loading flag are not touched |
| Auth.Guard | src/pages/Predict.tsx:88-99 | A protected page shows its fixed log-in notice exactly when no user is signed in (`IsAuthenticated`, the presence of a user object as at src/hooks/useAuth.tsx:131, fails); otherwise it shows its content for the signed-in user |
| Auth.OperationsKeepCoherence | src/hooks/useAuth.tsx:56-125 | Initialisation, login, register and logout all preserve the agreement between the in-memory user and the storage slot |
| Auth.SessionSurvivesReload | src/hooks/useAuth.tsx:58-111 | For every state and arguments, a session left by a successful login or registration is restored unchanged when the app is mounted afresh over its storage slot |
| Auth.LogoutIdempotent | src/hooks/useAuth.tsx:121-125 | Logging out twice is the same as logging out once |
| Auth.RegisterRepeatable | src/hooks/useAuth.tsx:95-111 | Because registration never records the account, a second registration of the same email right after a successful one also succeeds, and it receives the same id |
| Auth.MockIdsAreOneBased | src/hooks/useAuth.tsx:25-50 | The demonstration accounts' ids are the numerals of their one-based positions |
| Auth.RegisteredIdIsFresh | src/hooks/useAuth.tsx:101 | When a directory's ids are its one-based positions, the id that registration assigns belongs to no directory entry |
| Auth.DemoLogin | src/hooks/useAuth.tsx:25-88 | Against the demonstration directory, admin credentials sign in with role admin. A wrong password is rejected and leaves the session empty. The same email with different capitalisation is rejected |
| Auth.DemoRegister | src/hooks/useAuth.tsx:25-119 | Against the demonstration directory, registering a taken email fails and changes nothing but loading; a fresh email receives id "4" |
| Text.Split | src/pages/Upload.tsx:49 | `split('.')` returns separator-free parts that join back to the name. The last part is a suffix of the name, and it is either the whole name or comes right after a separator |
| Text.LastSegmentIsTail | src/pages/Upload.tsx:49 | `pop` of the split is the separator-free tail of the name after its last separator, or the whole name when it has none |
| Text.LastSegmentAfterSeparator | src/pages/Upload.tsx:49 | For a name `p.q` where `q` contains no dot, `pop` of the split yields exactly `q`, whatever `p` is |
| Text.LastSegmentWithoutSeparator | src/pages/Upload.tsx:49 | A dotless name is its own last segment |
| Text.Capitalize | src/pages/Upload.tsx:332 | The type label keeps the length of the type, upper-cases its first character and leaves the rest untouched |
| Text.DecimalString | src/hooks/useAuth.tsx:101 | The id numeral has at least one digit and no leading zero (unless it is "0"), and reads back as the number it renders |
| Upload.Screen | src/pages/Upload.tsx:26-37 | The upload page shows only "Please log in to upload data files." exactly when nobody is signed in |
| Upload.Extension | src/pages/Upload.tsx:49 | The extension is the lower-cased, dot-free tail of the name right after its last dot, or the whole name lower-cased when it has no dot |
| Upload.CheckFile | src/pages/Upload.tsx:43-53 | A file is accepted iff it has at most 5,242,880 bytes and a csv extension. An oversized file is refused for its size whatever its name; a file within the size limit but with another extension is refused as not CSV |
| Upload.ChooseFile | src/pages/Upload.tsx:39-57 | A chosen file that passes both checks becomes the selection and nothing else changes; a refused file, or no file at all, leaves the page unchanged |
| Upload.StartUpload | src/pages/Upload.tsx:59-66 | With nothing selected, or while an upload runs (the button is disabled then), nothing happens. Otherwise the page is marked uploading with progress 0, and an interval starts that captures the selected file and the active tab |
| Upload.Tick | src/pages/Upload.tsx:66-83 | While progress is below 100, a callback adds exactly 5. The callback that finds 100 or more appends exactly one record {captured file name, captured tab}, stops the interval, clears the selection, clears uploading and resets progress to 0. Earlier records are kept |
| Upload.InitialWellformed | src/pages/Upload.tsx:15-19 | The page as first shown (soil tab, nothing selected, progress 0, not uploading, no files) satisfies the page invariant |
| Upload.RunKeepsWellformed | src/pages/Upload.tsx:15-112 | Any sequence of tab changes, file choices, upload presses, interval callbacks and deletes keeps the page invariant |
| Upload.ReachableWellformed | src/pages/Upload.tsx:15-112 | Every page state reachable from the first rendering satisfies the invariant: uploading iff an interval runs, progress a multiple of 5 in [0, 100], and 0 when idle |
| Upload.TicksWhileRunning | src/pages/Upload.tsx:67-81 | While progress stays at or below 100, k callbacks add exactly 5k and change nothing else |
| Upload.UploadCompletesOnTwentyFirstTick | src/pages/Upload.tsx:59-83 | An upload started from idle shows 100 after 20 callbacks and completes on the 21st. The completing callback appends exactly the file and tab of the start to the unchanged earlier list |
| Upload.OperationsKeepWellformed | src/pages/Upload.tsx:39-112 | Choosing a file, starting an upload, a callback and a delete all keep these facts true: uploading holds iff an interval runs; progress is a multiple of 5 in [0, 100]; progress is 0 when idle |
| Upload.TickKeepsWellformed | src/pages/Upload.tsx:67-81 | A callback keeps progress a multiple of 5 within [0, 100], and keeps it 0 when idle |
| Upload.RemoveAt | src/pages/Upload.tsx:109-110 | Filtering out position i leaves one element fewer, with the elements before i unchanged and the ones after i shifted down by one. An i outside the list removes nothing |
| Upload.DeleteFile | src/pages/Upload.tsx:109-112 | Deleting changes only the list: it becomes the list without its i-th element, or stays as it was when i is out of range |
| Upload.DeleteRemovesOne | src/pages/Upload.tsx:109-110 | A valid delete removes exactly one occurrence of the chosen record from the multiset of records and keeps all others |
| Upload.FooterMessage | src/pages/Upload.tsx:349-351 | The footer shows the full-access text iff the user's role is admin or researcher; otherwise it shows the farmers' text |
| Upload.TypeLabel | src/pages/Upload.tsx:332 | A recorded file's type label has the type's length, its first character upper-cased and the rest unchanged |
| Upload.SizeCheckedFirst | src/pages/Upload.tsx:43-46 | The ceiling is 5,242,880 bytes and it is inclusive. One byte more is refused for size, whatever the name |
| Upload.CsvNameByLastDot | src/pages/Upload.tsx:49-53 | A name with a dot is accepted iff the text after its last dot lower-cases to "csv" |
| Upload.CsvNameWithoutDot | src/pages/Upload.tsx:49-53 | A name without a dot is its own extension: it is accepted iff all of it lower-cases to "csv" |
| Upload.AnyCaseCsvAccepted | src/pages/Upload.tsx:49-53 | Any name whose last segment is "csv" in any mix of letter cases is accepted. "A.CSV" is one such name |
| Upload.BareCsvAccepted | src/pages/Upload.tsx:49-53 | The dotless name "csv" is accepted |
| Upload.InnerCsvRejected | src/pages/Upload.tsx:49-53 | Any name ending in ".csv.txt", such as "a.csv.txt", is rejected: only the last segment counts |
| Upload.LabelChangesOnlyCase | src/pages/Upload.tsx:332 | A file's type label differs from its type only in letter case: both lower-case to the same text |
| Upload.RegisteredFooter | src/pages/Upload.tsx:349-351 | After a successful registration, the footer shows the full-access text iff the role passed to `register` is exactly "admin" or "researcher"; the unchecked role cast at src/hooks/useAuth.tsx:104 lets "Admin" through, and it gets the farmers' text |
| Upload.TypeLabels | src/pages/Upload.tsx:332 | The three tabs' types are labelled "Soil", "Environmental" and "Crop" |
| Predict.Failing | src/pages/Predict.tsx:19-31 | A field is listed as failing iff its rule fails; the list is empty iff every rule holds |
| Predict.Validate | src/pages/Predict.tsx:19-31 | The resolver returns the record unchanged iff every schema rule holds. Otherwise it returns a non-empty list holding exactly the failing fields |
| Predict.ValidIffWithinRanges | src/pages/Predict.tsx:19-31 | A record validates iff all of these hold: crop type non-empty; pH in [0, 14]; moisture, organic matter and humidity in [0, 100]; sunshine in [0, 24]; nitrogen, phosphorus, potassium and rainfall at least 0. Soil temperature is unconstrained |
| Predict.UnboundedFields | src/pages/Predict.tsx:23-28 | Starting from a record within every range, raising nitrogen, phosphorus, potassium and rainfall, each by its own non-negative amount (any of them zero, so one field alone too), and setting the soil temperature to any number gives a record the validator accepts |
| Predict.DefaultsValid | src/pages/Predict.tsx:41-53 | The default record passes the schema |
| Predict.Reset | src/pages/Predict.tsx:325 | After reset, the form holds exactly the default record, which validates |
| Predict.Draw | src/pages/Predict.tsx:73-74 | `Math.floor(Math.random() * n)` lies in [0, n) |
| Predict.DrawAttains | src/pages/Predict.tsx:73-74 | Every integer in [0, n) is produced by some random draw |
| Predict.Screen | src/pages/Predict.tsx:88-99 | The prediction page shows only "Please log in to make crop yield predictions." exactly when nobody is signed in |
| Predict.Submit | src/pages/Predict.tsx:60-86 | Submission stores a prediction iff someone is signed in and the record is within range. Without a session, it is unreachable. With a session, a record out of range is held back as Invalid, with exactly the fields the resolver reports as failing. The stored data is the validated input; the yield is in [30, 79], the confidence in [85, 99], and the timestamp is the submission time |
| Predict.ResultExtremes | src/pages/Predict.tsx:71-76 | The extremes 30 and 79 (yield) and 85 and 99 (confidence) are reached. The 80 and 100 named in the source's comments are not |

## Left out

- Rendering, layout, the tab, slider and select widgets, animation, toasts, console logging, navigation and the template download are left out: they are UI or side effects. A tab change is modelled only as the `activeTab` update it performs (src/pages/Upload.tsx:120).
- The landing page, navigation bar, visualisation, results and settings pages are not part of this model. They hold static chart data, float formatting and simulated saves.
- Timers and React's batching of state updates are left out. Each interval callback is one atomic `Tick`, and each asynchronous operation is represented by the state it settles in. The intermediate `isLoading = true` of login and register is never rendered separately, so it is not modelled.
- Storage failures and malformed JSON in the `"user"` slot are left out; the source does not handle them. The slot is an `Option<User>`, and an empty string would be skipped by the source's truthiness test.
- The `avatarUrl` field is optional in the source type, so it is an `Option<string>`. Every code path sets it to `Some("")`.
- `z.coerce.number` string coercion, NaN and the infinities are left out. Field values are already-parsed reals.
- Upload.Extension lower-cases ASCII letters only (via Text.Lower), where JavaScript's `toLowerCase` maps all of Unicode: a name "x.É" has extension "É" here and "é" in JavaScript. No non-ASCII character lower-cases to c, s or v, so which names are accepted as CSV is the same.
- Text.Capitalize upper-cases ASCII letters only and always keeps the length, where JavaScript's `toUpperCase` maps all of Unicode and can lengthen a string ("ß" becomes "SS"). The types it is applied to are the ASCII tab values "soil", "environmental" and "crop".
- Upload.TypeLabel inherits the ASCII-only upper-casing of Text.Capitalize, for the same reason.
- Upload.StartUpload includes the button's disabled guard (src/pages/Upload.tsx:176-179). A call to `simulateUpload` while an interval already runs cannot happen through the page, so it is not modelled.
- The upload date is the `now` parameter of `Tick`, and the submission timestamp is the `now` parameter of `Submit`. Date formatting is left out.
- Predict.Draw requires n ≥ 1. The source only calls it with 50 and 15.
- The `catch` branch of the prediction submission is left out. It could only be reached by a storage failure, and storage is not modelled.
