# S3_MVP core in Dafny

S3_MVP is a SwiftUI client for Amazon S3. It lets a user do three things:

- sign in with an access key, a secret key and a region;
- browse buckets and the folders inside them;
- set up folder-sync jobs, which upload a local folder to a bucket prefix at a chosen time of day.

This project models three parts of the app and proves properties about each of them.

- **Folder sync** (`SyncView.swift`):
  - the job record (`SyncConfig`) and the run record (`SyncHistory`);
  - the view model `SyncViewModel`: loading, saving, adding, toggling and removing jobs; the five-entry history log; the last-sync time; the app-wide timer; the per-tick schedule check; and one sync run with its key scheme and its summary.
- **The bucket browser** (`ContentView.swift`):
  - the navigation state: the selected bucket, the current prefix and its breadcrumb text, the navigation stack, the back button, breadcrumb taps, folder taps and bucket selection;
  - the split of one `listObjectsV2` page into folders and files;
  - the keys that folder creation, file creation and upload write;
  - the region fallback and the `createBucket` location constraint;
  - the local name of a download;
  - the two display abbreviations of an item;
  - the create-bucket form's name validation.
- **Credential checking** (`AWSCredentialUtility.swift`): how `validateCredentials` turns the SDK's outcome into a result or one of three errors, and the text of each error.

Modules:

- `Strings`: the string operations the app uses, proved once: trimming, splitting, joining, suffixes, ASCII upper-casing and decimal printing.
- `SyncModel`: jobs, run records, the schedule rule, keys, run results and the history log, all as values.
- `SyncScheduler`: the classes `Settings` (the `UserDefaults` store), `SyncTimerSlot` (the static timer) and `SyncViewModel`. Their methods change fields in place and are proved against the `SyncModel` functions.
- `BucketNames`: bucket name validation, with both regular expressions modelled as the code compiles them.
- `S3Paths`: breadcrumb text, created keys, upload checks, regions, download names and the display abbreviations.
- `Listing`: the folder and file items built from one listing page.
- `Browser`: the class `MainView`, which holds the browser's navigation and listing state.
- `Credentials`: credential classification.

Inputs are the things the model cannot compute. Each becomes a parameter:

- clock readings (`TimeOfDay`, `Instant`), formatted dates (`startText`), and fresh UUIDs;
- the folder a job reads: `FolderListing` and its entries. For each entry: whether the exists-and-not-a-directory test skips it (`skipped`), and whether its read or its request failed;
- how an SDK call ended: `ListOutcome`, `LocationAnswer`, `ThrownError`, `LocalFile`.

## Model

| member | source | states |
|---|---|---|
| SyncModel.StatusShowsOutcome | S3_MVP/Views/SyncView.swift:62-86 | A success record is marked successful and its status does not mention failure. A failure record is not marked successful and its status starts with the failure mark and ": ". Both records carry the job's id, its bucket and the given details. |
| SyncModel.MatchWithinWindow | S3_MVP/Views/SyncView.swift:527-536 | When a job's time matches, the clock is within five minutes of the job's time, counted as minutes of the day. |
| SyncModel.HourBoundaryIsNotCrossed | S3_MVP/Views/SyncView.swift:527-536 | A job set for 10:58 does not run at 11:02, although the two times are four minutes apart: the rule requires the same hour. |
| SyncModel.FiresOnEveryTickOfWindow | S3_MVP/Views/SyncView.swift:527-536 | Every minute from five before to five after the job's time, in the same hour, matches. |
| SyncModel.DueStep | S3_MVP/Views/SyncView.swift:527-553 | Looking at one more job of the list adds that job to the due list exactly when it is enabled and its time matches. |
| SyncModel.DueIff | S3_MVP/Views/SyncView.swift:527-553 | A job is among those a tick runs exactly when it is in the list, enabled, and its time matches. |
| SyncModel.ObjectKeyRoundTrip | S3_MVP/Views/SyncView.swift:763 | With a prefix, the remote key starts with the prefix and a slash. The file name can be read back from the key for any prefix. |
| SyncModel.TrailingSlashPrefixDoublesSlash | S3_MVP/Views/SyncView.swift:763 | A prefix that already ends in "/" produces a key containing "//". |
| SyncModel.EveryFileAccountedFor | S3_MVP/Views/SyncView.swift:752-782 | Every regular file gets exactly one detail line, in listing order, and counts as a success or a failure; so successes plus failures equal the number of regular files. A request goes only to a file whose data was read: request k is for the k-th read file, to the job's bucket at its key. There are no more requests than regular files, and no fewer than successes. |
| SyncModel.ReadFailureSendsNothing | S3_MVP/Views/SyncView.swift:759-780 | A file whose data cannot be read sends no request, but gets a failure line and one failure count. |
| SyncModel.DirectoriesSkipped | S3_MVP/Views/SyncView.swift:752-757 | Entries that fail the exists-and-not-a-directory test get no line, no request and no count. |
| SyncModel.UploadLineMarks | S3_MVP/Views/SyncView.swift:774-778 | A success line starts with the success mark. A failed read or a failed request gives a line that starts with the failure mark. Neither mark is a prefix of the other. |
| SyncModel.RunRecordShape | S3_MVP/Views/SyncView.swift:719-800 | A run records success exactly when the folder could be listed. Its first line is the start line. A listed run has status "成功" and 3 + n lines for n regular files: the found line counting every entry, then the summary with the two counts. A failed run has the failure status and just two lines, the start line and the error line. |
| SyncModel.AddHistoryShape | S3_MVP/Views/SyncView.swift:705-716 | Adding a record puts it first, keeps the newest earlier records, and caps the log at five. |
| SyncModel.ReversedAt | S3_MVP/Views/SyncView.swift:705-716 | Reversal maps index k to index n-1-k, which is the newest-first order of the log. |
| SyncModel.AddAllKeepsNewest | S3_MVP/Views/SyncView.swift:705-716 | Adding several records one after another yields them newest first, followed by the old log, cut to five entries. |
| SyncModel.SevenRunsKeepLastFive | S3_MVP/Views/SyncView.swift:705-716 | After seven runs on an empty log, the log holds the records of runs 7, 6, 5, 4 and 3, in that order. |
| SyncModel.KeepMembers | S3_MVP/Views/SyncView.swift:629-636 | The filtered list holds exactly the members that pass the test, and it is no longer than the original. |
| SyncModel.KeepIdentity | S3_MVP/Views/SyncView.swift:629-636 | Filtering leaves a list unchanged exactly when every member passes the test. |
| SyncModel.KeepAppend | S3_MVP/Views/SyncView.swift:629-636 | Filtering a list split in two is filtering each part and concatenating. So the kept jobs keep their order and their repetitions. |
| SyncModel.KeepOne | S3_MVP/Views/SyncView.swift:629-636 | A single job is kept exactly when it passes the test. |
| SyncModel.LoadedJobs | S3_MVP/Views/SyncView.swift:616-643 | When decoded data is present, the loaded jobs are exactly the stored jobs with a non-empty folder and bucket. Loading them changes nothing if they were all valid. When data is missing or does not decode, the current list stays. |
| SyncModel.LoadedInOrder | S3_MVP/Views/SyncView.swift:629-636 | Loading keeps the stored order: the jobs loaded from a list split in two are those of the first part, then those of the second. A single job is loaded exactly when it is valid. |
| SyncModel.FirstIndex | S3_MVP/Views/SyncView.swift:803 | The index found is the first job with the id. None means no job has the id. |
| SyncModel.ToggleFirstEffect | S3_MVP/Views/SyncView.swift:802-807 | Toggling changes only the enabled flag, and only on the first job with the id. Every other job and field stays the same. |
| SyncModel.ToggleTwice | S3_MVP/Views/SyncView.swift:802-807 | Toggling the same id twice gives back the original list. |
| SyncModel.ToggleKeepsValid | S3_MVP/Views/SyncView.swift:802-807 | Toggling keeps every job valid. |
| SyncModel.RemoveIdEffect | S3_MVP/Views/SyncView.swift:809-813 | After removal, a job is in the list exactly when it was there before and has a different id. The list is unchanged exactly when no job had the id. |
| SyncModel.RemoveIdInOrder | S3_MVP/Views/SyncView.swift:809-813 | Removal keeps the order of the jobs that stay: removing from a list split in two removes from each part. A single job stays exactly when its id differs. |
| SyncModel.RemoveIdKeepsValid | S3_MVP/Views/SyncView.swift:809-813 | Removal keeps every job valid. |
| SyncModel.SeedConfigShape | S3_MVP/Views/SyncView.swift:423-437 | The example job seeded when nothing loads is valid and disabled, so no tick runs it. Its prefix "example-folder/" makes every key it would write contain "//". |
| SyncModel.RunsOfShape | S3_MVP/Views/SyncView.swift:527-553 | A tick produces one record per job run, in order. Each record carries that job's id and succeeds exactly when its folder could be listed. |
| SyncModel.TickStep | S3_MVP/Views/SyncView.swift:527-553 | Running one more job appends its record to the tick's records, grows the log by exactly that record, and adds that run's requests: one per read file, or none when the folder could not be listed. |
| SyncModel.TickLogShape | S3_MVP/Views/SyncView.swift:527-553 | After a tick that ran jobs, the log has min(runs + old, 5) entries and its head is the record of the last job run. |
| SyncScheduler.Settings.constructor | S3_MVP/Views/SyncView.swift:604-613 | The store holds the three decoded values it is given. |
| SyncScheduler.SyncTimerSlot.constructor | S3_MVP/Views/SyncView.swift:402 | At launch, no timer exists. |
| SyncScheduler.SyncTimerSlot.Fire | S3_MVP/Views/SyncView.swift:476-482 | A firing runs the schedule check on the view model the timer captured. It runs the due jobs (none with automatic sync off) and extends the log by their records. |
| SyncScheduler.ValidConfigs | S3_MVP/Views/SyncView.swift:629-636 | The loop keeps, in order, exactly the jobs with a folder and a bucket, so every job it returns is valid. |
| SyncScheduler.UploadFiles | S3_MVP/Views/SyncView.swift:752-782 | The loop produces the listing's detail lines, requests and two counters. The line count and successes plus failures both equal the number of regular files. The requests number exactly the read files, at least the successes. |
| SyncScheduler.SyncViewModel.constructor | S3_MVP/Views/SyncView.swift:412-453 | The jobs are the valid stored jobs, or the single example job when none loads. The last-sync time and the log come from the store. The form holds a blank job, automatic sync is on, and the credentials are the ones given. The store is untouched. The app-wide timer is started with this view model unless one already runs. |
| SyncScheduler.SyncViewModel.UpdateCredentials | S3_MVP/Views/SyncView.swift:456-461 | The three credential fields take the given values. |
| SyncScheduler.SyncViewModel.StartGlobalSyncTimer | S3_MVP/Views/SyncView.swift:464-491 | A timer is created only if none exists. After the call one runs, and at most one is ever created. It keeps the view model it was first given, and a second call changes nothing. |
| SyncScheduler.SyncViewModel.StartSyncTimer | S3_MVP/Views/SyncView.swift:494-497 | Delegates to the app-wide timer with the same guarantees. |
| SyncScheduler.SyncViewModel.StopSyncTimer | S3_MVP/Views/SyncView.swift:500-504 | Stopping leaves the timer unchanged. |
| SyncScheduler.SyncViewModel.SaveConfigsToUserDefaults | S3_MVP/Views/SyncView.swift:604-613 | The store holds the current job list. |
| SyncScheduler.SyncViewModel.LoadConfigsFromUserDefaults | S3_MVP/Views/SyncView.swift:616-643 | The job list becomes the loaded jobs, or stays as it was when nothing decodes. Every job remains valid. |
| SyncScheduler.SyncViewModel.SaveConfig | S3_MVP/Views/SyncView.swift:645-654 | With a folder and a bucket set, the form's job is appended with the chosen bucket and the list is saved. The form is reset to a blank job and the bucket choice is cleared. Otherwise nothing changes. |
| SyncScheduler.SyncViewModel.ToggleConfig | S3_MVP/Views/SyncView.swift:802-807 | The list becomes the toggled list. It is saved only when the id was found; an unknown id leaves the store alone. |
| SyncScheduler.SyncViewModel.RemoveConfig | S3_MVP/Views/SyncView.swift:809-813 | Every job with the id is dropped and the list is saved. |
| SyncScheduler.SyncViewModel.SaveSyncHistory | S3_MVP/Views/SyncView.swift:687-693 | The store holds the current log. |
| SyncScheduler.SyncViewModel.LoadSyncHistory | S3_MVP/Views/SyncView.swift:696-702 | The log becomes the stored log when it decodes. Otherwise it stays as it was. |
| SyncScheduler.SyncViewModel.AddSyncHistory | S3_MVP/Views/SyncView.swift:705-716 | The record goes first, the log is capped at five and then saved. |
| SyncScheduler.SyncViewModel.UpdateLastSyncTime | S3_MVP/Views/SyncView.swift:581-586 | The last-sync time is now, both in memory and in the store. |
| SyncScheduler.SyncViewModel.SyncFolder | S3_MVP/Views/SyncView.swift:719-800 | One run leaves either the summary or the error as the status, then adds exactly one record to the log and saves it. It sends one request per file whose data was read, or none when the folder could not be listed. |
| SyncScheduler.SyncViewModel.ManualSync | S3_MVP/Views/SyncView.swift:589-601 | A manual sync is one run followed by the last-sync update. |
| SyncScheduler.SyncViewModel.RunIfDue | S3_MVP/Views/SyncView.swift:527-548 | A job runs exactly when it is enabled and its time matches. Then it is one run plus the last-sync update; otherwise the view model and the store are unchanged. |
| SyncScheduler.SyncViewModel.CheckScheduledSync | S3_MVP/Views/SyncView.swift:507-559 | With automatic sync on, a tick runs the due jobs in list order; with it off, none. The log grows by their records, newest first and capped at five, and the tick issues their uploads. With no job run nothing changes. Otherwise the status is the last run's result and the last-sync time is now. |
| BucketNames.AcceptedIff | S3_MVP/ContentView.swift:1697-1739 | With `$` read as end of input, a name is accepted exactly when all of these hold: its length is 3 to 63; it uses only lower-case letters, digits, dots and hyphens; it starts and ends with a letter or digit; it has no ".."; and it is not four dot-separated digit runs. A name that passes the pattern never starts or ends with "-". |
| BucketNames.DigitRunsChars | S3_MVP/ContentView.swift:1732 | A name matching the address pattern starts and ends with a digit and contains only digits and dots. |
| BucketNames.NoDoubleDot | S3_MVP/ContentView.swift:1725 | A name with no two adjacent dots does not contain "..". |
| BucketNames.DoubleDotRejected | S3_MVP/ContentView.swift:1725-1729 | "a..b" passes the pattern but is rejected for its consecutive dots. |
| BucketNames.AddressRejected | S3_MVP/ContentView.swift:1732-1737 | "192.168.0.1" passes the earlier checks and is rejected as an IP address. |
| BucketNames.AgreeWithoutTerminators | S3_MVP/ContentView.swift:1716-1737 | For a name without line terminators, the regular expressions as compiled and the intended end-of-input rule give the same verdict. |
| BucketNames.TrailingTerminatorAccepted | S3_MVP/ContentView.swift:1716-1737 | Any accepted name of at most 62 characters, with one line terminator appended, is also accepted as written. The intended rule rejects it for bad characters. |
| BucketNames.NewlineNameAcceptedAsWritten | S3_MVP/ContentView.swift:1716-1737 | "abc\n" is accepted by the regular expressions as compiled and rejected by the intended rule. |
| BucketNames.CreateBucketForm.constructor | S3_MVP/ContentView.swift:1694-1695 | A new form is valid and shows no message. |
| BucketNames.CreateBucketForm.ValidateBucketName | S3_MVP/ContentView.swift:1697-1739 | Both patterns match as ICU matches them. The form is marked valid exactly when the name passes every check, and the message is that of the first failing check, or empty. So "abc\n" is marked valid. For a name without line terminators, the verdict equals the intended rule. |
| S3Paths.NormalizePathShape | S3_MVP/ContentView.swift:1286-1297 | The breadcrumb is empty exactly when the prefix is all slashes or empty. Otherwise it has no slash at either end and none doubled. It always has the same slash-separated pieces as the prefix. |
| S3Paths.NormalizePathIdempotent | S3_MVP/ContentView.swift:1286-1297 | Normalising a breadcrumb again changes nothing. |
| S3Paths.TrimKeepsPieces | S3_MVP/ContentView.swift:1288-1294 | Trimming outer slashes does not change the non-empty pieces. |
| S3Paths.CreatedKeys | S3_MVP/ContentView.swift:1299-1447 | Folder and file creation proceed exactly when a bucket is selected and a name is typed. A folder key is prefix + trimmed name + "//". A file key is prefix + trimmed name. The trimmed name can be read back from either key and has no slash at either end. |
| S3Paths.SlashOnlyName | S3_MVP/ContentView.swift:1300-1345 | A name made only of slashes passes the guard. It creates "prefix//" as a folder, and the prefix itself as a file key. |
| S3Paths.UploadRequestIff | S3_MVP/ContentView.swift:857-940 | An upload proceeds exactly when these all hold: the file exists, is not a folder, is readable and reads without error, and a bucket is selected. Its key is the prefix followed by the file name. A missing file is reported as missing, even with no bucket selected. |
| S3Paths.ResolveRegionUsesChosen | S3_MVP/ContentView.swift:736-753 | The client is rebuilt exactly when the chosen region differs from the configured one. An empty answer means us-east-1. No answer, or an exception, keeps the configured region. |
| S3Paths.CreatedBucketResolvesBack | S3_MVP/ContentView.swift:1149-1159 | A location constraint is sent exactly when the region is not us-east-1, and then it names the region. That constraint, reported back, resolves to the region. An empty one resolves to us-east-1. |
| S3Paths.DownloadNameSlashFree | S3_MVP/ContentView.swift:1636-1644 | A download name is never empty and never contains a slash. |
| S3Paths.DownloadNameFallback | S3_MVP/ContentView.swift:1636-1644 | A key that is empty or ends in "/" gets "file_" followed by the UUID. Any other key gets its last component, which is a suffix of the key. |
| S3Paths.DownloadRoundTrip | S3_MVP/ContentView.swift:939-940 | Downloading a file created or uploaded under a folder prefix gives back its single-component name. |
| S3Paths.SimpleContentTypeIsSubtype | S3_MVP/ContentView.swift:75-81 | A content type is shown as the upper-cased text after its last slash. |
| S3Paths.SimpleContentTypeLastPiece | S3_MVP/ContentView.swift:75-81 | Whenever the type has a non-empty piece, it is shown as the upper-cased text after the last slash, once trailing slashes are dropped. So "image/png/" is shown by its subtype, like "image/png". |
| S3Paths.SimpleContentTypeFallback | S3_MVP/ContentView.swift:75-81 | A type made only of slashes is shown unchanged. Any other type shows a non-empty text without slashes. |
| S3Paths.ReplaceShorter | S3_MVP/ContentView.swift:86 | Replacing a target with something shorter never lengthens the text. The text is unchanged exactly when the target does not occur in it. |
| S3Paths.SimpleStorageClassMeaning | S3_MVP/ContentView.swift:84-87 | A storage class is shown unchanged exactly when it does not contain "STANDARD". The shown text is never longer, and "STANDARD_IA" reads "STD_IA". |
| Listing.PartitionPage | S3_MVP/ContentView.swift:764-822 | The two loops give the folders: every common prefix, then every folder key other than the prefix itself. They give the files: every other key other than the prefix. Folders followed by files is the partition of the page. |
| Listing.ContentItemShape | S3_MVP/ContentView.swift:795-816 | A folder key becomes a folder item with no size and the directory type. A file key becomes a file item with its size and no type. |
| Listing.PrefixFoldersMembers | S3_MVP/ContentView.swift:771-782 | A common prefix with a value yields exactly one folder item. Those without a value are skipped. |
| Listing.ContentItemsMembers | S3_MVP/ContentView.swift:785-819 | An object yields an item of the folder or file group exactly when it has a key, that key is not the listed prefix, and the key's trailing slash matches the group. |
| Listing.PrefixFoldersAreFolders | S3_MVP/ContentView.swift:771-782 | Every common-prefix item is a folder with the directory type. |
| Listing.ContentItemsKind | S3_MVP/ContentView.swift:785-819 | Every item of a group has the group's folder flag and key shape, and its key differs from the prefix. |
| Listing.FoldersThenFiles | S3_MVP/ContentView.swift:822 | In the listed objects, every folder comes before every file. |
| Listing.OneObject | S3_MVP/ContentView.swift:785-819 | A single object lands in exactly one of the two groups, or in neither when its key is missing or equals the prefix. |
| Listing.ContentItemsAppend | S3_MVP/ContentView.swift:785-819 | The items keep the listing's order. |
| Listing.PrefixFoldersAppend | S3_MVP/ContentView.swift:771-782 | The prefix folders keep the listing's order. |
| Listing.PartitionMembers | S3_MVP/ContentView.swift:764-822 | An item is in the listed objects exactly when it comes from a common prefix or from a key shown in the listing. |
| Browser.MainView.constructor | S3_MVP/ContentView.swift:186-201 | The browser starts with no bucket, an empty path, no objects and no selection. |
| Browser.MainView.UpdatePath | S3_MVP/ContentView.swift:1286-1297 | The breadcrumb text is the normalised prefix. |
| Browser.MainView.SelectBucket | S3_MVP/ContentView.swift:1274-1284 | The bucket becomes selected and current at its root. The stack restarts there, the selection is cleared, and the root is listed. |
| Browser.MainView.NavigateToPath | S3_MVP/ContentView.swift:695-710 | An index outside the stack changes nothing. Otherwise the stack keeps the entries up to the index, that entry's prefix becomes current, and it is listed. |
| Browser.MainView.GoBack | S3_MVP/ContentView.swift:411-420 | With more than one entry, the last one is dropped and the one before it becomes current. Otherwise nothing changes. |
| Browser.MainView.OpenFolder | S3_MVP/ContentView.swift:624-633 | The folder's key becomes the current prefix. With a current bucket it is pushed on the stack and listed. Without one, the stack stays. |
| Browser.MainView.ListObjects | S3_MVP/ContentView.swift:712-856 | A finished listing leaves the partition of the page and no error, or no objects and an error that quotes the service message (or "未知錯誤") or the description, with the region. Loading is over either way. |
| Browser.ListedTypesShown | S3_MVP/ContentView.swift:75-81 | In a listing, every folder shows the upper-cased "x-directory" type and every file shows "-". |
| Browser.ContentTypeOfItem | S3_MVP/ContentView.swift:795-816 | A content item carries the directory type exactly when it is a folder. |
| Browser.DirectoryTypeShown | S3_MVP/ContentView.swift:75-81 | "application/x-directory" is shown as "x-directory" upper-cased. |
| Credentials.ErrorDescriptionInjective | S3_MVP/Utilities/AWSCredentialUtility.swift:12-21 | The three error descriptions are pairwise different. |
| Credentials.ValidateCredentials | S3_MVP/Utilities/AWSCredentialUtility.swift:25-57 | The function returns, always true, exactly when nothing threw. An error from the resolver propagates unclassified. An error from the call is thrown as its classification. |
| Credentials.NeverReturnsFalse | S3_MVP/Utilities/AWSCredentialUtility.swift:25-57 | The function never returns false. |
| Credentials.InvalidCredentialsIff | S3_MVP/Utilities/AWSCredentialUtility.swift:46-50 | An error is invalid credentials exactly when it is a service error whose message contains "InvalidAccessKeyId" or "SignatureDoesNotMatch". |
| Credentials.NetworkErrorIff | S3_MVP/Utilities/AWSCredentialUtility.swift:46-53 | An error is a network error exactly when it is a service error whose message names no bad key and contains "Network" or "connect". |
| Credentials.UnknownIff | S3_MVP/Utilities/AWSCredentialUtility.swift:46-57 | Every other error is unknown: a service error without a message or with no keyword, and any other error. |
| Credentials.BadKeyTakesPrecedence | S3_MVP/Utilities/AWSCredentialUtility.swift:46-53 | A message that names both a signature mismatch and a connection problem is reported as invalid credentials. |
| Strings.TrimShape | S3_MVP/ContentView.swift:1288 | Trimming removes exactly the leading and trailing separators. The result is a slice of the input with no separator at either end. |
| Strings.JoinSplitClean | S3_MVP/ContentView.swift:1293-1294 | For a string with no separator at either end and none doubled, splitting and joining gives back the string. |
| Strings.SplitLastIsAfterLast | S3_MVP/ContentView.swift:77-78 | The last non-empty piece is the text after the last separator, when that text is not empty. |
| Strings.NatToStringRoundTrip | S3_MVP/Views/SyncView.swift:746-747 | The decimal text of a count is all digits and reads back as the count. |

## Left out

- The AWS SDK calls are not modelled. Their outcomes are inputs: `ListOutcome`, `LocationAnswer`, `ThrownError`, the per-file upload outcomes, and `LocalFile` for the file manager's answers. Other operations, such as `listBuckets`, `deleteBucket`, `deleteSelectedObjects` and `downloadSelectedObjects`, are not modelled beyond the download name.
- `S3Paths.CreatedBucketResolvesBack`: what `getBucketLocation` answers for a new bucket is not modelled. The round trip assumes the service reports the constraint the bucket was created with, and the default region as an empty constraint. An absent constraint would keep the configured region, as `S3Paths.ResolveRegionUsesChosen` states.
- The `skipped` field of a `SyncModel` folder entry stands for a failed `fileExists(atPath:isDirectory:) && !isDir` test. The model does not say why it failed: a directory, a dangling link, or a file removed after the listing.
- `listObjects` resolves its region with the same code as upload and creation. That rule is modelled once, by `S3Paths.ResolveRegion`. `Browser.MainView.ListObjects` takes the finished outcome and does not rebuild the client.
- `Browser.MainView.ListObjects`: the two error texts are modelled by the values they quote (the message or description, and the region), not as the full multi-line text.
- `UserDefaults` and JSON coding are not modelled. The store holds decoded values (`Stored`, `Absent`, `Undecodable`), so encoding and decoding are assumed to round-trip.
- `Date`, `Calendar` and the date formatters are not modelled. The hour and minute, the record's time and the formatted start text are parameters. Every run in one tick shares them.
- Concurrency is not modelled: `Task`, `Timer`, `RunLoop`, `@MainActor`, async suspension and the iOS background-task calls. A timer firing is a call of `SyncTimerSlot.Fire`, and runs happen one after another.
- `SyncScheduler.SyncViewModel.SyncFolder` does not record the passing "已上傳" status set after each upload (SyncView.swift:772). Only the final status is observable once the run ends.
- Logging to the console and to a file, and every SwiftUI view, are left out.
- `loadBuckets` is left out because it is an SDK call that only fills a picker. `selectFolder` is left out because the folder is a parameter. The `shared` singleton is left out because a view model object stands for it.
- `refreshCurrentView`, the selection toggles and the sheets are left out because they are view glue.
- `SyncHistory.id` and the UUIDs of `S3Item` exist only for SwiftUI identity, so they are not modelled. Sizes and dates are opaque integers.
- `BucketNames`: lengths count characters, where Swift counts grapheme clusters. `\d` is ASCII digits, where ICU also matches other Unicode digits.
- `S3Paths.SimpleContentType` upper-cases ASCII letters only.
- The scheduler's rule is modelled as written: the same hour, and minutes at most five apart. A window that crosses an hour does not fire, as `SyncModel.HourBoundaryIsNotCrossed` shows.
- `SyncScheduler.SyncViewModel.constructor` reads the store before the object is complete. It runs the same loop as `LoadConfigsFromUserDefaults` and states the same result, but as values.
- `Browser.ListedTypesShown` and `Browser.DirectoryTypeShown` state the folder type as `Upper("x-directory")`, which is "X-DIRECTORY", rather than as the literal.

## Findings

| source | as written | input that shows it | evidently intended | confidence | as-written member | corrected member |
|---|---|---|---|---|---|---|
| S3_MVP/ContentView.swift:1716-1737 | Both patterns end in `$`, which ICU also matches just before a final line terminator, so a name followed by "\n" passes the character check | "abc\n" | Accept only names whose every character is a lower-case letter, digit, dot or hyphen | not executed | BucketNames.NewlineNameAcceptedAsWritten | BucketNames.AcceptedIff |
