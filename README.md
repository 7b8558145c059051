# A verified model of Collect's form synchronisation path

This project models, in Dafny, the part of ODK Collect (this fork) that keeps a device's blank
forms and downloaded records in step with an OpenRosa server, together with the small list and
state helpers around it.

- **`OpenRosaSource`** (`openrosa_source.dfy`) models `OpenRosaFormSource`. It builds the
  form-list, submission-list and submission-download URLs. It maps transport exceptions and
  HTTP error statuses (401 Unauthorized, section 15.5.2 of RFC 9110; 404 Not Found, section
  15.5.5 of RFC 9110) to `FormSourceException` types. It hands each fetched document to a parser.
- **`OpenRosaResponses`** (`openrosa_responses.dfy`) holds the parsers:
  - the OpenRosa form list (`xforms` in the `xformsList` namespace);
  - the legacy Aggregate 0.9 form list;
  - the `xformsManifest` media manifest;
  - the submission id list;
  - the briefcase-style `<submission>` download.

  Each parser is an imperative method, with its loops and overwritten local fields. It is proved
  equal to a specification function, and the lemmas state what that function means.
- **`Xml`, `Text`, `Seqs`, `Wrappers`** are the document tree (elements, attributes, text nodes),
  the Java string operations used (`trim`, `endsWith`, `contains`, `compareTo`, ASCII
  `toLowerCase`), generic sequence filters and the `Result`/`Option` types.
- **`ServerFormsDetails`** (`server_forms_details.dfy`) models `ServerFormsDetailsFetcher`. For
  each server form it decides:
  - whether the form is on the device;
  - whether a newer form version exists (the `md5:`-prefixed hash);
  - whether newer media files exist (the manifest).

  Manifests are fetched through the form source.
- **`MatchExactly`** (`forms_synchronizer.dfy`) is the match-exactly `ServerFormsSynchronizer`
  that `ServerFormsSynchronizerTest` specifies. It deletes local forms the server no longer
  lists. It downloads forms that are new or updated. A download failure is reported as
  `FETCH_ERROR` only after every other download was attempted. It runs against the in-memory
  repository and the recording downloader of the test.
- **`FormsRepository`** (`forms_repository.dfy`) models `InMemFormsRepository`. Its queries are
  functions of the stored list. `save`, `delete`, `softDelete`, `restore` and
  `deleteFormsByMd5Hash` are methods that change that list.
- **`WebCredentials`** and **`Credentials`** model the credential maps of `WebCredentialsUtils`
  (keyed by host) and the `TokenCredentials` record. The two maps are `static` in the source and
  the preferences are a singleton, so they live in one `CredentialStore` object that every
  `WebCredentialsUtils` refers to. The static `clearAllCredentials` and `saveAuthToken` are
  module-level methods over that store.
- **`Forms`** holds the records: `FormListItem`, `MediaFile`, `ManifestFile` and the
  `SubmissionManifest` result of a submission download.
- **`DataDownloadList`** (`data_download_list.dfy`) models `DataDownloadListFragment`, the list of
  server forms with records to download. The list is kept in alphabetical order as details
  arrive. It is filtered by the search text and sorted ignoring case. The checked rows become
  one download task.
- **`AppList`** (`app_list.dfy`) models `AppListActivity`: the select-all toggle over a list
  view's check marks, the toggle button's label, restoring previously checked rows, the
  progress-bar flags and the filter text.
- **`FormList`** (`form_list.dfy`) models `FormListActivity.getSortingOrder`.
- **`TestSchedulerModel`** (`test_scheduler.dfy`) models the instrumented tests'
  `TestScheduler`: the pending-task counter with its finished callback, and the list of
  network-deferred tasks.

Host extraction, JWT verification, URL encoding, file hashing, the XML serializer and the
server's responses are not computed. Each is a function-typed parameter or a field that the
model takes as given. Wherever the model lets a value be null or short, the unchecked Java exception it causes is
the error value `RuntimeFailure`. This covers a missing server URL or preferences singleton, an
XML element without the child or attribute read, a short hash, and an index out of range. Those
paths stay in the model instead of being excluded by preconditions. The fields of a stored
`Form` are never null in the model (see "## Left out").

## Model

| member | source | states |
|---|---|---|
| OpenRosaSource.MapException | collect_app/src/main/java/org/odk/collect/android/openrosa/OpenRosaFormSource.java:562-572 | An unknown host gives UNREACHABLE, an SSL failure SECURITY_ERROR and any other exception FETCH_ERROR, each carrying the server URL; a returned result passes through unchanged. Each is stated as an if-and-only-if. |
| OpenRosaSource.ErrorForStatus | collect_app/src/main/java/org/odk/collect/android/openrosa/OpenRosaFormSource.java:79-87 | An error response maps by status alone: 401 iff AUTH_REQUIRED, 404 iff UNREACHABLE with the server URL, anything else iff FETCH_ERROR without it. |
| OpenRosaSource.ErrorResponsesMapByStatus | collect_app/src/main/java/org/odk/collect/android/openrosa/OpenRosaFormSource.java:101-109 | In every fetcher, a fetched result with an error message becomes the status's exception (401 and 404 named). The form list fails the same way for every document with that status, so the document is never parsed. |
| OpenRosaSource.StripTrailingSlashes | collect_app/src/main/java/org/odk/collect/android/openrosa/OpenRosaFormSource.java:575-584 | The stripped URL is a prefix of the URL, does not end in `/`, and only slashes follow it. |
| OpenRosaSource.StripTrailingSlashesIdempotent | collect_app/src/main/java/org/odk/collect/android/openrosa/OpenRosaFormSource.java:578-580 | Stripping twice is stripping once. |
| OpenRosaSource.StripTrailingSlashesKeepsOthers | collect_app/src/main/java/org/odk/collect/android/openrosa/OpenRosaFormSource.java:578-580 | A base that does not end in `/`, followed by any number of slashes, strips back to the base. |
| OpenRosaSource.StripSlashes | collect_app/src/main/java/org/odk/collect/android/openrosa/OpenRosaFormSource.java:578-580 | The `while` loop computes the stripped URL. |
| OpenRosaSource.XmlFetcher.GetXml | collect_app/src/main/java/org/odk/collect/android/openrosa/OpenRosaFormSource.java:98 | The fetcher returns the server's answer for the URL and records the request. |
| OpenRosaSource.OpenRosaFormSource.constructor | collect_app/src/main/java/org/odk/collect/android/openrosa/OpenRosaFormSource.java:61-68 | The source keeps the server URL, the three paths and the fetcher. |
| OpenRosaSource.OpenRosaFormSource.UpdateUrl | collect_app/src/main/java/org/odk/collect/android/openrosa/OpenRosaFormSource.java:170-172 | The server URL is replaced. |
| OpenRosaSource.OpenRosaFormSource.GetFormListUrl | collect_app/src/main/java/org/odk/collect/android/openrosa/OpenRosaFormSource.java:575-584 | The stripped server URL followed by the form-list path. |
| OpenRosaSource.OpenRosaFormSource.GetSubmissionListUrl | collect_app/src/main/java/org/odk/collect/android/openrosa/OpenRosaFormSource.java:587-599 | The stripped server URL, the submission-list path, then the `formId`, `dataAssignee` and `notCompletedOnly` query. |
| OpenRosaSource.OpenRosaFormSource.GetDownloadSubmissionUrl | collect_app/src/main/java/org/odk/collect/android/openrosa/OpenRosaFormSource.java:602-615 | The stripped server URL, the submission path, then the encoded `formId` key naming the version (`null` when absent) and the submission id. |
| OpenRosaSource.OpenRosaFormSource.FetchFormSubmissionIds | collect_app/src/main/java/org/odk/collect/android/openrosa/OpenRosaFormSource.java:71-90 | Without a server URL it fails before any request. Otherwise exactly the submission-list URL is requested, and the result is the mapped failure or the id-list parse. |
| OpenRosaSource.OpenRosaFormSource.FetchFormList | collect_app/src/main/java/org/odk/collect/android/openrosa/OpenRosaFormSource.java:93-116 | Exactly the form-list URL is requested. A failure is mapped as above. Otherwise the OpenRosa parser is used exactly when the response is OpenRosa, and the legacy parser when it is not. |
| OpenRosaSource.OpenRosaFormSource.FetchManifest | collect_app/src/main/java/org/odk/collect/android/openrosa/OpenRosaFormSource.java:119-135 | No URL gives no manifest and no request. Otherwise exactly that URL is requested; an error message or a non-OpenRosa response is FETCH_ERROR, and otherwise the result is the manifest parse. |
| OpenRosaSource.OpenRosaFormSource.FetchData | collect_app/src/main/java/org/odk/collect/android/openrosa/OpenRosaFormSource.java:143-162 | Exactly the download URL is requested, and the result is the mapped failure or the submission parse. |
| OpenRosaResponses.LastFieldText | collect_app/src/main/java/org/odk/collect/android/openrosa/OpenRosaFormSource.java:366-428 | A field's value is the text of its last occurrence among the entry's children, and absent when it does not occur. |
| OpenRosaResponses.LastFieldTextStep | collect_app/src/main/java/org/odk/collect/android/openrosa/OpenRosaFormSource.java:366-428 | One more child overwrites the value exactly when it is the field. |
| OpenRosaResponses.NonEmpty | collect_app/src/main/java/org/odk/collect/android/openrosa/OpenRosaFormSource.java:380-383 | Empty text is read as null, and any other text is kept. |
| OpenRosaResponses.NonBlank | collect_app/src/main/java/org/odk/collect/android/openrosa/OpenRosaFormSource.java:392-395 | A version that is blank after trimming is read as null, and any other is kept. |
| OpenRosaResponses.ReadXformFields | collect_app/src/main/java/org/odk/collect/android/openrosa/OpenRosaFormSource.java:357-428 | The inner loop over an `<xform>` entry yields, for each of the eight tags, the normalised text of its last occurrence in the list namespace. |
| OpenRosaResponses.XformItemOf | collect_app/src/main/java/org/odk/collect/android/openrosa/OpenRosaFormSource.java:430-436 | An entry yields no item iff its formID, downloadUrl or name is missing. A yielded item is well formed. |
| OpenRosaResponses.ParseFormList | collect_app/src/main/java/org/odk/collect/android/openrosa/OpenRosaFormSource.java:327-440 | The parse method computes the form-list specification: FETCH_ERROR unless the root is `xforms` in the list namespace, then the items of the `xform` entries. |
| OpenRosaResponses.FormListEntries | collect_app/src/main/java/org/odk/collect/android/openrosa/OpenRosaFormSource.java:339-355 | Only element children in the list namespace named `xform` (ignoring case) count. The parse succeeds iff every one of them yields an item, and then gives one item per entry, in document order. |
| OpenRosaResponses.FormListItemsWellFormed | collect_app/src/main/java/org/odk/collect/android/openrosa/OpenRosaFormSource.java:430-433 | Every item of a successful parse has a non-empty id, download URL and name, and no empty optional field. |
| OpenRosaResponses.LegacyItemOf | collect_app/src/main/java/org/odk/collect/android/openrosa/OpenRosaFormSource.java:464-481 | A `form` element fails iff its `url` attribute is missing or its name is empty. Otherwise the item carries the pending form id, the trimmed URL, the name, and no version, hash or manifest. |
| OpenRosaResponses.ParseLegacyFormList | collect_app/src/main/java/org/odk/collect/android/openrosa/OpenRosaFormSource.java:442-485 | The legacy parse method computes the legacy specification over the root's children. |
| OpenRosaResponses.LegacyItemsPerFormElement | collect_app/src/main/java/org/odk/collect/android/openrosa/OpenRosaFormSource.java:451-481 | A successful legacy parse gives one item per `form` element, in order, each named by that element's text. |
| OpenRosaResponses.LegacyFormStep | collect_app/src/main/java/org/odk/collect/android/openrosa/OpenRosaFormSource.java:464-481 | A `form` element contributes exactly one item ahead of those of the rest. |
| OpenRosaResponses.FormIdElementSetsPendingId | collect_app/src/main/java/org/odk/collect/android/openrosa/OpenRosaFormSource.java:458-463 | A `formID` element replaces the pending id with its text. |
| OpenRosaResponses.FormElementTakesPendingId | collect_app/src/main/java/org/odk/collect/android/openrosa/OpenRosaFormSource.java:464-481 | A `form` element takes the pending id, which is then reset for the rest. |
| OpenRosaResponses.LegacyIdsOnlyFromFormIdElements | collect_app/src/main/java/org/odk/collect/android/openrosa/OpenRosaFormSource.java:451-463 | Without `formID` elements no item has an id. |
| OpenRosaResponses.ReadManifestMediaFile | collect_app/src/main/java/org/odk/collect/android/openrosa/OpenRosaFormSource.java:513-549 | The inner loop over a `<mediaFile>` entry yields the normalised filename, hash and download URL of their last occurrences in the manifest namespace. |
| OpenRosaResponses.ManifestFileOf | collect_app/src/main/java/org/odk/collect/android/openrosa/OpenRosaFormSource.java:551-556 | An entry yields nothing iff its filename, hash or download URL is missing; a yielded file has all three, non-empty. |
| OpenRosaResponses.ParseManifest | collect_app/src/main/java/org/odk/collect/android/openrosa/OpenRosaFormSource.java:487-560 | The parse method computes the manifest specification: FETCH_ERROR unless the root is `manifest` in the manifest namespace, then the media files with the document's hash. |
| OpenRosaResponses.ManifestEntriesListed | collect_app/src/main/java/org/odk/collect/android/openrosa/OpenRosaFormSource.java:499-559 | The parse succeeds iff every `mediaFile` entry is complete. It then carries the document hash and one file per entry, in order. |
| OpenRosaResponses.ParseSubmissionIds | collect_app/src/main/java/org/odk/collect/android/openrosa/OpenRosaFormSource.java:190-204 | The `j += 2` loop computes the id-list specification: a leading `idList` gives its ids, another leading element gives none, and a missing or text first child fails. |
| OpenRosaResponses.IdsAtEvenPositions | collect_app/src/main/java/org/odk/collect/android/openrosa/OpenRosaFormSource.java:193-203 | The ids are the first-child texts of the children at positions 0, 2, 4, …, one for each. |
| OpenRosaResponses.ReadAttachment | collect_app/src/main/java/org/odk/collect/android/openrosa/OpenRosaFormSource.java:260-280 | A submission's `mediaFile` entry yields the last filename, hash and download URL, matched by name ignoring case. |
| OpenRosaResponses.DistinctTags | collect_app/src/main/java/org/odk/collect/android/openrosa/OpenRosaFormSource.java:271-278 | No name matches two of the three tags ignoring case, so the `else if` chain sets each field independently. |
| OpenRosaResponses.FindFirstElement | collect_app/src/main/java/org/odk/collect/android/openrosa/OpenRosaFormSource.java:243-251 | The search over a `data` entry finds its first element child: none exactly when all children are text. |
| OpenRosaResponses.ElementsNamed | collect_app/src/main/java/org/odk/collect/android/openrosa/OpenRosaFormSource.java:303-312 | Only elements with the given name are kept. |
| OpenRosaResponses.ParseSubmissionResponse | collect_app/src/main/java/org/odk/collect/android/openrosa/OpenRosaFormSource.java:206-325 | The parse method computes the submission specification: the root checks, the scan of `data` and `mediaFile` entries, the after-loop checks, the instance name and the result. |
| OpenRosaResponses.ScanKeepsAttachments | collect_app/src/main/java/org/odk/collect/android/openrosa/OpenRosaFormSource.java:260-283 | A successful scan keeps the attachments of every `mediaFile` entry, in document order. |
| OpenRosaResponses.ScanKeepsConsistent | collect_app/src/main/java/org/odk/collect/android/openrosa/OpenRosaFormSource.java:241-259 | Whenever a body has been found, the instance id is that body's `instanceID` attribute. |
| OpenRosaResponses.ScanFindsBody | collect_app/src/main/java/org/odk/collect/android/openrosa/OpenRosaFormSource.java:241-259 | A successful scan has a body iff some child is a `data` entry. |
| OpenRosaResponses.SubmissionResponseFacts | collect_app/src/main/java/org/odk/collect/android/openrosa/OpenRosaFormSource.java:285-324 | A successful parse has a `submission` root and a `data` entry, lists every attachment, and carries an instance id that is the `instanceID` of the serialized body. |
| ServerFormsDetails.Md5WithoutPrefix | collect_app/src/main/java/org/odk/collect/android/formmanagement/ServerFormsDetailsFetcher.java:156-158 | A null or empty hash gives null. A non-empty hash shorter than `md5:` throws. Otherwise the result is what follows the first four characters. |
| ServerFormsDetails.Md5PrefixRemoved | collect_app/src/main/java/org/odk/collect/android/formmanagement/ServerFormsDetailsFetcher.java:156-158 | Removing the prefix from `md5:` + h gives back h. |
| ServerFormsDetails.IsNewerFormVersionAvailable | collect_app/src/main/java/org/odk/collect/android/formmanagement/ServerFormsDetailsFetcher.java:115-122 | A null hash is not newer; an empty one is. Otherwise the version is newer iff no local form has the hash without its prefix, and a short hash throws. |
| ServerFormsDetails.IsMediaFileAlreadyDownloaded | collect_app/src/main/java/org/odk/collect/android/formmanagement/ServerFormsDetailsFetcher.java:140-154 | The early-return search: a `.zip` file counts as downloaded, and any other file iff some local file has its hash minus the prefix; a null name or a short hash throws. |
| ServerFormsDetails.NewerAmong | collect_app/src/main/java/org/odk/collect/android/formmanagement/ServerFormsDetailsFetcher.java:127-132 | No newer file means every file counts as already downloaded. |
| ServerFormsDetails.NewerMediaFiles | collect_app/src/main/java/org/odk/collect/android/formmanagement/ServerFormsDetailsFetcher.java:124-138 | Without a local list, media are newer iff the manifest lists any file. |
| ServerFormsDetails.NewerAmongWhenCheckable | collect_app/src/main/java/org/odk/collect/android/formmanagement/ServerFormsDetailsFetcher.java:127-132 | When every file can be checked, media are newer iff some file is not already downloaded. |
| ServerFormsDetails.ZipFilesNeverNewer | collect_app/src/main/java/org/odk/collect/android/formmanagement/ServerFormsDetailsFetcher.java:141-144 | A manifest of `.zip` files only is never newer. |
| ServerFormsDetails.AreNewerMediaFilesAvailable | collect_app/src/main/java/org/odk/collect/android/formmanagement/ServerFormsDetailsFetcher.java:124-138 | The early-return loop computes the newer-media decision. |
| ServerFormsDetails.ManifestFetched | collect_app/src/main/java/org/odk/collect/android/formmanagement/ServerFormsDetailsFetcher.java:102-113 | No URL gives no manifest. A `FormSourceException` is swallowed into no manifest, so a failure that remains is never one. |
| ServerFormsDetails.ItemDetails | collect_app/src/main/java/org/odk/collect/android/formmanagement/ServerFormsDetailsFetcher.java:70-96 | The item's fields are copied. It is not on the device iff no live local form has its id. It is updated only when on the device and the version is newer, or else the manifest's non-empty media are. |
| ServerFormsDetails.PassDetails | collect_app/src/main/java/org/odk/collect/android/formmanagement/ServerFormsDetailsFetcher.java:64-96 | A pass that succeeds describes the item, with no manifest when it names no manifest URL. |
| ServerFormsDetails.Details | collect_app/src/main/java/org/odk/collect/android/formmanagement/ServerFormsDetailsFetcher.java:63-97 | A successful loop gives one details record per item; unchecked failures propagate. |
| ServerFormsDetails.DetailsDescribeItems | collect_app/src/main/java/org/odk/collect/android/formmanagement/ServerFormsDetailsFetcher.java:63-97 | The output has exactly one record per server item, in the same order, each describing its item. |
| ServerFormsDetails.DetailsStep | collect_app/src/main/java/org/odk/collect/android/formmanagement/ServerFormsDetailsFetcher.java:63-97 | One pass of the loop: a failure stops it, and a success prepends its record and requests. |
| ServerFormsDetails.ManifestUrls | collect_app/src/main/java/org/odk/collect/android/formmanagement/ServerFormsDetailsFetcher.java:66-68 | The URLs requested are the items' manifest URLs. |
| ServerFormsDetails.ManifestsFetchedOnlyWithUrl | collect_app/src/main/java/org/odk/collect/android/formmanagement/ServerFormsDetailsFetcher.java:66-68 | A manifest is requested for, and only for, each item with a manifest URL, in order. |
| ServerFormsDetails.ServerFormsDetailsFetcher.GetManifestFile | collect_app/src/main/java/org/odk/collect/android/formmanagement/ServerFormsDetailsFetcher.java:102-113 | The manifest is fetched through the form source with a `FormSourceException` swallowed, and exactly that URL is requested. |
| ServerFormsDetails.ServerFormsDetailsFetcher.DescribeItem | collect_app/src/main/java/org/odk/collect/android/formmanagement/ServerFormsDetailsFetcher.java:70-96 | The flags set step by step equal the item's details. |
| ServerFormsDetails.ServerFormsDetailsFetcher.FetchItemDetails | collect_app/src/main/java/org/odk/collect/android/formmanagement/ServerFormsDetailsFetcher.java:64-96 | One pass of the loop: the manifest fetch, if any, then the flags. |
| ServerFormsDetails.ServerFormsDetailsFetcher.FetchAllDetails | collect_app/src/main/java/org/odk/collect/android/formmanagement/ServerFormsDetailsFetcher.java:61-99 | The loop over the listed items: the first failing item ends it with that failure; otherwise one record per item, in list order. The manifest requests are made in the same order. |
| ServerFormsDetails.ServerFormsDetailsFetcher.FetchFormDetails | collect_app/src/main/java/org/odk/collect/android/formmanagement/ServerFormsDetailsFetcher.java:57-100 | A form-list failure is rethrown. Otherwise the result is the details of every listed item. The requests are the form list, then each manifest URL in order. |
| MatchExactly.RecordingFormDownloader.DownloadForm | collect_app/src/test/java/org/odk/collect/android/formmanagement/ServerFormsSynchronizerTest.java:115-127 | Every request is recorded, and it fails exactly for the forms set to fail. |
| MatchExactly.RecordingFormDownloader.GetDownloadedForms | collect_app/src/test/java/org/odk/collect/android/formmanagement/ServerFormsSynchronizerTest.java:115-127 | The form ids of the requests, in order. |
| MatchExactly.PrunedKeeps | collect_app/src/test/java/org/odk/collect/android/formmanagement/ServerFormsSynchronizerTest.java:55-69 | A form survives the deletion loop iff no visited form that the server does not list has its id. |
| MatchExactly.DeletesExactlyFormsNotListed | collect_app/src/test/java/org/odk/collect/android/formmanagement/ServerFormsSynchronizerTest.java:55-69 | With unique ids, exactly the local forms whose form id the server lists remain. |
| MatchExactly.SomeDownloadFailsAppend | collect_app/src/test/java/org/odk/collect/android/formmanagement/ServerFormsSynchronizerTest.java:93-113 | One more form adds its own failure, if it is downloaded, to those before it. |
| MatchExactly.ServerFormsSynchronizer.Synchronize | collect_app/src/test/java/org/odk/collect/android/formmanagement/ServerFormsSynchronizerTest.java:35-113 | A fetch exception is rethrown unchanged and nothing else happens. Otherwise unlisted local forms are deleted, and exactly the forms not on the device or updated are downloaded, in order. FETCH_ERROR is thrown iff some download failed. |
| MatchExactly.ServerFormsSynchronizer.DeleteFormsNotListed | collect_app/src/test/java/org/odk/collect/android/formmanagement/ServerFormsSynchronizerTest.java:55-69 | The deletion loop leaves the pruned repository. |
| MatchExactly.ServerFormsSynchronizer.DownloadNeeded | collect_app/src/test/java/org/odk/collect/android/formmanagement/ServerFormsSynchronizerTest.java:35-53 | Every form needing it is requested in list order, and no other. A failure does not stop the loop, and the result says whether any failed. |
| FormsRepository.GetByJrFormIdNotDeleted | collect_app/src/test/java/org/odk/collect/android/support/InMemFormsRepository.java:27-29 | Exactly the non-deleted forms with that form id; empty iff there is none. |
| FormsRepository.GetByJrFormIdNotDeletedInOrder | collect_app/src/test/java/org/odk/collect/android/support/InMemFormsRepository.java:27-29 | The query keeps stored order: the matches of a concatenation are the matches of each part. |
| FormsRepository.Get | collect_app/src/test/java/org/odk/collect/android/support/InMemFormsRepository.java:38-40 | The first form with that id, or nothing iff none has it. |
| FormsRepository.GetByFormIdAndVersion | collect_app/src/test/java/org/odk/collect/android/support/InMemFormsRepository.java:44-48 | The first form with that form id and a null-safely equal version, or nothing iff none. |
| FormsRepository.GetByMd5Hash | collect_app/src/test/java/org/odk/collect/android/support/InMemFormsRepository.java:52-54 | The first form with that hash, or nothing iff none; a null hash matches nothing. |
| FormsRepository.GetByPath | collect_app/src/test/java/org/odk/collect/android/support/InMemFormsRepository.java:58-60 | The first form stored at that path, or nothing iff none. |
| FormsRepository.Marked | collect_app/src/test/java/org/odk/collect/android/support/InMemFormsRepository.java:67-89 | The length is unchanged and an unknown id changes nothing. Otherwise the form appears last with its new flag, and the forms with other ids keep their order. |
| FormsRepository.MarkedPermutes | collect_app/src/test/java/org/odk/collect/android/support/InMemFormsRepository.java:67-77 | The list is a permutation of the old one with the one form's flag changed. |
| FormsRepository.MarkedMovesToEnd | collect_app/src/test/java/org/odk/collect/android/support/InMemFormsRepository.java:67-89 | With unique ids, the moved form is then the first, and only, form with its id. |
| FormsRepository.RestoreAfterSoftDelete | collect_app/src/test/java/org/odk/collect/android/support/InMemFormsRepository.java:67-89 | `restore` after `softDelete` gives back the form, not deleted; the length and the other forms are unchanged. |
| FormsRepository.InMemFormsRepository.Save | collect_app/src/test/java/org/odk/collect/android/support/InMemFormsRepository.java:21-24 | The form is appended and every other entry stays. |
| FormsRepository.InMemFormsRepository.GetAll | collect_app/src/test/java/org/odk/collect/android/support/InMemFormsRepository.java:32-34 | A value copy of the list. |
| FormsRepository.InMemFormsRepository.Delete | collect_app/src/test/java/org/odk/collect/android/support/InMemFormsRepository.java:63-65 | Every form with the id is removed and the others keep their order. |
| FormsRepository.InMemFormsRepository.DeleteFormsByMd5Hash | collect_app/src/test/java/org/odk/collect/android/support/InMemFormsRepository.java:92-94 | Every form with the hash is removed and the others keep their order. |
| FormsRepository.InMemFormsRepository.SoftDelete | collect_app/src/test/java/org/odk/collect/android/support/InMemFormsRepository.java:67-77 | The list becomes the marked list with `deleted` set. |
| FormsRepository.InMemFormsRepository.Restore | collect_app/src/test/java/org/odk/collect/android/support/InMemFormsRepository.java:80-89 | The list becomes the marked list with `deleted` cleared. |
| FormsRepository.SaveThenQuery | collect_app/src/test/java/org/odk/collect/android/support/InMemFormsRepository.java:21-29 | After saving a live form, the query for its id ends with it. |
| WebCredentials.WebCredentialsUtils.ServerUrlFromPreferences | collect_app/src/main/java/org/odk/collect/android/utilities/WebCredentialsUtils.java:74-79 | "" without preferences, the stored server URL otherwise. |
| WebCredentials.WebCredentialsUtils.PasswordFromPreferences | collect_app/src/main/java/org/odk/collect/android/utilities/WebCredentialsUtils.java:81-86 | "" without preferences, the stored password otherwise. |
| WebCredentials.WebCredentialsUtils.UserNameFromPreferences | collect_app/src/main/java/org/odk/collect/android/utilities/WebCredentialsUtils.java:88-93 | "" without preferences, the stored user name otherwise. |
| WebCredentials.WebCredentialsUtils.TokenFromPreferences | collect_app/src/main/java/org/odk/collect/android/utilities/WebCredentialsUtils.java:95-100 | "" without preferences, the stored token otherwise. |
| WebCredentials.WebCredentialsUtils.GetCredentials | collect_app/src/main/java/org/odk/collect/android/utilities/WebCredentialsUtils.java:136-163 | Null when the host's stored token fails verification (no token passes). Then a host's temporary credentials win. For the preferences host (ignoring case) the preference user and password follow. Any other host gets null. |
| WebCredentials.WebCredentialsUtils.SaveCredentials | collect_app/src/main/java/org/odk/collect/android/utilities/WebCredentialsUtils.java:33-40 | An empty user name changes nothing. Otherwise the host maps to the pair, overwriting, and a lookup then returns it. |
| WebCredentials.WebCredentialsUtils.ClearCredentials | collect_app/src/main/java/org/odk/collect/android/utilities/WebCredentialsUtils.java:59-68 | An empty URL or a null host changes nothing; otherwise only that host's entry goes. |
| WebCredentials.CredentialStore.constructor | collect_app/src/main/java/org/odk/collect/android/utilities/WebCredentialsUtils.java:30-31 | Both shared maps start empty, beside the given preferences. |
| WebCredentials.ClearAllCredentials | collect_app/src/main/java/org/odk/collect/android/utilities/WebCredentialsUtils.java:70-72 | The shared temporary map is empty, so through every utilities object over the store no host but the preferences host gets credentials. Tokens and preferences stay. |
| WebCredentials.SaveAuthToken | collect_app/src/main/java/org/odk/collect/android/utilities/WebCredentialsUtils.java:102-128 | An empty token changes nothing. A token that fails verification throws and changes nothing. Otherwise the host maps to the token with its subject in the shared store, and the token is saved to preferences; null preferences throw after the map update. Every utilities object over the store then accepts that host's token. |
| Credentials.TokenCredentials.GetPassword | collect_app/src/main/java/org/odk/collect/android/openrosa/TokenCredentials.java:21-24 | A token credential has no password. |
| Credentials.TokenCredentialsGetters | collect_app/src/main/java/org/odk/collect/android/openrosa/TokenCredentials.java:3-25 | The getters give back the user name and token of construction, and never a password. |
| Forms.SubmissionManifestGetters | collect_app/src/main/java/org/odk/collect/android/forms/SubmissionManifest.java:5-28 | The getters give back the instance id, XML, attachments and (possibly null) instance name of construction. |
| DataDownloadList.InsertionIndex | collect_app/src/main/java/org/odk/collect/android/fragments/DataDownloadListFragment.java:310-323 | The place before the first row whose name is greater, or the end. |
| DataDownloadList.Insert | collect_app/src/main/java/org/odk/collect/android/fragments/DataDownloadListFragment.java:310-323 | The list grows by one. |
| DataDownloadList.InsertPermutes | collect_app/src/main/java/org/odk/collect/android/fragments/DataDownloadListFragment.java:310-323 | Inserting adds exactly the new row. |
| DataDownloadList.InsertSorted | collect_app/src/main/java/org/odk/collect/android/fragments/DataDownloadListFragment.java:310-323 | Inserting into a sorted list keeps it sorted. |
| DataDownloadList.InsertStable | collect_app/src/main/java/org/odk/collect/android/fragments/DataDownloadListFragment.java:310-323 | A new row goes after every row with an equal name. |
| DataDownloadList.SortedBy | collect_app/src/main/java/org/odk/collect/android/fragments/DataDownloadListFragment.java:441-448 | Sorting keeps the length. |
| DataDownloadList.SortedByPermutes | collect_app/src/main/java/org/odk/collect/android/fragments/DataDownloadListFragment.java:441-448 | The sorted list is a permutation of its input. |
| DataDownloadList.SortedBySorts | collect_app/src/main/java/org/odk/collect/android/fragments/DataDownloadListFragment.java:441-448 | The sorted list is sorted. |
| DataDownloadList.SortedByStable | collect_app/src/main/java/org/odk/collect/android/fragments/DataDownloadListFragment.java:441-448 | Rows with equal keys keep their input order. |
| DataDownloadList.Arrivals | collect_app/src/main/java/org/odk/collect/android/fragments/DataDownloadListFragment.java:299-308 | Every row names a received form with records to download, under its details key. |
| DataDownloadList.ArrivalsComplete | collect_app/src/main/java/org/odk/collect/android/fragments/DataDownloadListFragment.java:299-308 | A received form has its row iff it has records to download. |
| DataDownloadList.Matching | collect_app/src/main/java/org/odk/collect/android/fragments/DataDownloadListFragment.java:233-242 | An empty filter keeps every row. A non-empty one keeps exactly the rows whose lower-cased name contains the lower-cased filter. |
| DataDownloadList.Displayed | collect_app/src/main/java/org/odk/collect/android/fragments/DataDownloadListFragment.java:231-243 | The displayed rows are exactly the matching rows. |
| DataDownloadList.DisplayedOrder | collect_app/src/main/java/org/odk/collect/android/fragments/DataDownloadListFragment.java:231-243 | The display is the matching rows, permuted, sorted by name ignoring case, with equal names in list order. |
| DataDownloadList.FormListOrder | collect_app/src/main/java/org/odk/collect/android/fragments/DataDownloadListFragment.java:299-323 | The form list holds the arrivals, sorted by `compareTo`, with equal names in arrival order. |
| DataDownloadList.Selected | collect_app/src/main/java/org/odk/collect/android/fragments/DataDownloadListFragment.java:180-188 | The collection has at most one entry per selected row; an unresolvable row is an unchecked failure. |
| DataDownloadList.SelectedCollects | collect_app/src/main/java/org/odk/collect/android/fragments/DataDownloadListFragment.java:180-188 | The details of the first selected rows, in selection order, none missing from the device. The collection stops only at the end or at a form not on the device. |
| DataDownloadList.InsertionPoint | collect_app/src/main/java/org/odk/collect/android/fragments/DataDownloadListFragment.java:314-321 | The scanning loop finds the insertion index. |
| DataDownloadList.ArrivedInOrder | collect_app/src/main/java/org/odk/collect/android/fragments/DataDownloadListFragment.java:294-324 | The loop over the received details builds the sorted arrivals. |
| DataDownloadList.FilterNoDuplicates | collect_app/src/main/java/org/odk/collect/android/fragments/DataDownloadListFragment.java:95 | Removing positions keeps the selection free of duplicates. |
| DataDownloadList.DataDownloadListFragment.OnListItemClick | collect_app/src/main/java/org/odk/collect/android/fragments/DataDownloadListFragment.java:217-224 | A checked row's position is added, once. An unchecked row's position is removed. Every other position and the rest of the state stay. |
| DataDownloadList.DataDownloadListFragment.SortList | collect_app/src/main/java/org/odk/collect/android/fragments/DataDownloadListFragment.java:441-448 | The filtered list is sorted by name ignoring case. |
| DataDownloadList.DataDownloadListFragment.UpdateAdapter | collect_app/src/main/java/org/odk/collect/android/fragments/DataDownloadListFragment.java:231-243 | The filtered list becomes the display of the form list for the filter. |
| DataDownloadList.DataDownloadListFragment.MatchingForms | collect_app/src/main/java/org/odk/collect/android/fragments/DataDownloadListFragment.java:233-242 | The filter loop computes the matching rows. |
| DataDownloadList.DataDownloadListFragment.FormListDownloadingComplete | collect_app/src/main/java/org/odk/collect/android/fragments/DataDownloadListFragment.java:284-330 | The progress bar is hidden. An exception leaves the lists alone. Otherwise the details are stored, the form list is the sorted arrivals, and the display is refreshed. |
| DataDownloadList.DataDownloadListFragment.ProcessDownload | collect_app/src/main/java/org/odk/collect/android/fragments/DataDownloadListFragment.java:169-202 | An unfinished task blocks a new one. Otherwise the selection is collected; a task starts, with the progress bar, exactly when the collection is non-empty. |
| DataDownloadList.DataDownloadListFragment.CollectSelected | collect_app/src/main/java/org/odk/collect/android/fragments/DataDownloadListFragment.java:178-188 | The selection loop computes the collection. |
| DataDownloadList.DataDownloadListFragment.DataDownloadingComplete | collect_app/src/main/java/org/odk/collect/android/fragments/DataDownloadListFragment.java:451-461 | The download failed iff the result is null or holds the value "error"; the progress bar is hidden. |
| AppList.Count | collect_app/src/main/java/org/odk/collect/android/activities/AppListActivity.java:250 | The checked count is at most the row count, and equals it iff every row is checked. |
| AppList.NewCheckState | collect_app/src/main/java/org/odk/collect/android/activities/AppListActivity.java:240-250 | The new state is true iff some row is unchecked. |
| AppList.ToggleFlipsUniform | collect_app/src/main/java/org/odk/collect/android/activities/AppListActivity.java:240-252 | Toggling a non-empty list whose rows agree flips them, so toggling twice restores it. |
| AppList.LabelFor | collect_app/src/main/java/org/odk/collect/android/activities/AppListActivity.java:267-273 | "Select all" iff some row is unchecked; "clear all" iff every row is checked. |
| AppList.LabelAfterToggle | collect_app/src/main/java/org/odk/collect/android/activities/AppListActivity.java:244-273 | After a toggle the label offers the opposite action. |
| AppList.SelectedPositions | collect_app/src/main/java/org/odk/collect/android/activities/AppListActivity.java:433-444 | Exactly the positions of the rows whose id is selected, increasing. |
| AppList.ListView.SetItemChecked | collect_app/src/main/java/org/odk/collect/android/activities/AppListActivity.java:262 | One row's mark is set and the others stay. |
| AppList.ListView.ClearChoices | collect_app/src/main/java/org/odk/collect/android/activities/AppListActivity.java:431 | Every mark is cleared. |
| AppList.SetAllToCheckedState | collect_app/src/main/java/org/odk/collect/android/activities/AppListActivity.java:255-264 | Every row gets the state; a null list is left alone. |
| AppList.ToggleChecked | collect_app/src/main/java/org/odk/collect/android/activities/AppListActivity.java:244-253 | Null gives false. Otherwise every row becomes checked iff some row was unchecked, and that state is returned. |
| AppList.ToggleButtonLabel | collect_app/src/main/java/org/odk/collect/android/activities/AppListActivity.java:267-273 | The button shows the label for the marks. |
| AppList.AppListActivity.CheckPreviouslyCheckedItems | collect_app/src/main/java/org/odk/collect/android/activities/AppListActivity.java:430-448 | Afterwards a row is checked iff its id is selected; with a null cursor none is. |
| AppList.AppListActivity.SelectedRows | collect_app/src/main/java/org/odk/collect/android/activities/AppListActivity.java:432-444 | The cursor walk gives the selected positions. |
| AppList.AppListActivity.GetFilterText | collect_app/src/main/java/org/odk/collect/android/activities/AppListActivity.java:483-485 | A null filter reads as "". |
| AppList.AppListActivity.HideProgressBarIfAllowed | collect_app/src/main/java/org/odk/collect/android/activities/AppListActivity.java:521-525 | The bar is hidden only when hiding is allowed and it is shown. |
| AppList.AppListActivity.HideProgressBarAndAllow | collect_app/src/main/java/org/odk/collect/android/activities/AppListActivity.java:527-530 | Hiding is allowed and the bar is hidden. |
| AppList.AppListActivity.HideProgressBar | collect_app/src/main/java/org/odk/collect/android/activities/AppListActivity.java:532-535 | The bar is hidden. |
| AppList.AppListActivity.ShowProgressBar | collect_app/src/main/java/org/odk/collect/android/activities/AppListActivity.java:537-540 | The bar is shown. |
| FormList.GetSortingOrder | collect_app/src/main/java/org/odk/collect/android/activities/FormListActivity.java:25-42 | Each code gives the clause of the ordering it names. An unknown code gives the default, by name ascending. |
| FormList.OrderingOf | collect_app/src/main/java/org/odk/collect/android/activities/FormListActivity.java:27-40 | The date column iff a date code, and descending iff a descending code. |
| FormList.ClauseInjective | collect_app/src/main/java/org/odk/collect/android/activities/FormListActivity.java:18-23 | Different orderings give different clauses. |
| FormList.SortingOrdersDistinct | collect_app/src/main/java/org/odk/collect/android/activities/FormListActivity.java:25-42 | The four codes give four different clauses. |
| TestSchedulerModel.Specs | collect_app/src/androidTest/java/org/odk/collect/android/support/TestScheduler.java:85-94 | The specs of the entries, one per entry, in list order. |
| TestSchedulerModel.RescheduledReplaces | collect_app/src/androidTest/java/org/odk/collect/android/support/TestScheduler.java:70-73 | After the repeating `networkDeferred`, exactly one entry has the tag, the new one, and it is last. |
| TestSchedulerModel.CancelKeepsOtherTags | collect_app/src/androidTest/java/org/odk/collect/android/support/TestScheduler.java:76-78 | Cancelling one tag keeps the entries of every other tag, in order. |
| TestSchedulerModel.RunKeepsRepeating | collect_app/src/androidTest/java/org/odk/collect/android/support/TestScheduler.java:85-94 | After a run exactly the repeating entries are left. A second run keeps all of them and runs exactly the specs of the first list's repeating entries. |
| TestSchedulerModel.TestScheduler.Increment | collect_app/src/androidTest/java/org/odk/collect/android/support/TestScheduler.java:100-104 | The count goes up by one and nothing else changes. |
| TestSchedulerModel.TestScheduler.Decrement | collect_app/src/androidTest/java/org/odk/collect/android/support/TestScheduler.java:106-114 | The count goes down by one. The callback runs exactly when the count reaches zero and a callback is set. |
| TestSchedulerModel.TestScheduler.SetFinishedCallback | collect_app/src/androidTest/java/org/odk/collect/android/support/TestScheduler.java:96-98 | The callback is set or cleared. |
| TestSchedulerModel.TestScheduler.GetTaskCount | collect_app/src/androidTest/java/org/odk/collect/android/support/TestScheduler.java:116-120 | The current count. |
| TestSchedulerModel.TestScheduler.NetworkDeferred | collect_app/src/androidTest/java/org/odk/collect/android/support/TestScheduler.java:65-67 | A one-off entry is appended and earlier entries with the tag stay. |
| TestSchedulerModel.TestScheduler.NetworkDeferredRepeating | collect_app/src/androidTest/java/org/odk/collect/android/support/TestScheduler.java:70-73 | The tag's entries are removed, then the repeating entry is appended. |
| TestSchedulerModel.TestScheduler.CancelDeferred | collect_app/src/androidTest/java/org/odk/collect/android/support/TestScheduler.java:76-78 | Exactly the entries with the tag are removed, and the rest keep their order. |
| TestSchedulerModel.TestScheduler.RunDeferredTasks | collect_app/src/androidTest/java/org/odk/collect/android/support/TestScheduler.java:85-94 | Every entry's task runs in list order, then only the repeating entries remain. |

## Left out

- Network and HTTP I/O scope:
  - The server is the fetcher's `respond` function and `OpenRosaXmlFetcher` is not part of this model.
  - `fetchForm`, `fetchMediaFile` and `fetchFile` return raw streams and are left out.
  - `updateWebCredentialsUtils` only swaps a collaborator the model does not use.
- Foreign code replaced by parameters:
  - JavaRosa's `XFormParser.getXMLText` is `Xml.ElementText`: null when the element has no children or starts with an element, otherwise the trimmed leading text.
  - The KXml serializer is the `serialize` parameter, and `URLEncoder.encode` is the `encode` parameter.
  - `FileUtils.getMd5Hash` and `mediaFileRepository.getAll` are the `LocalMedia` function.
  - `Uri.parse(url).getHost()` is `hostOf`.
  - JWT verification is `verifies`, and the token's subject is `subjectOf`.
- String model:
  - Strings are sequences of characters.
  - `toLowerCase`, `equalsIgnoreCase` and `compareToIgnoreCase` fold ASCII letters only.
  - `compareTo` compares character codes.
- `parseSubmissionResponse` is modelled for its structure: the root, the `data` and `mediaFile` entries, the instance id and the instance name. The serialized XML text itself is the `serialize` parameter.
- `ServerFormsSynchronizer` is not part of this model as source. What `Synchronize` does follows the match-exactly behaviour that `ServerFormsSynchronizerTest` asserts, and what the details fetcher returns or throws is the `fetched` input.
- `ServerFormsDetails.ServerFormsDetailsFetcher.FetchFormDetails`: the disk synchronisation it starts with (`diskFormsSynchronizer.synchronize`) and `updateFormListApi` are left out, because they touch the file system and rebuild the form source.
- Preferences and persistence:
  - `GeneralSharedPreferences` is an optional `Preferences` value.
  - `saveCredentialsPreferences` writes preferences through a `PropertyManager` and is left out.
- Android UI: views, dialogs, toasts, menus, button enabling, resources and the list adapters.
  - `AppList.ListView` models only the check marks of an Android `ListView`.
  - `AppList.ListView.SetItemChecked` requires a position in range, as every caller passes one.
  - The label text of the toggle button is the `Label` datatype.
- `FormsRepository.Form`: `id`, `jrFormId`, `md5Hash` and `formFilePath` are never null in the model, so the null dereferences of `InMemFormsRepository` are not modelled. In the source, a query throws a `NullPointerException` when it scans a stored form missing the field it compares, before the first match, because `findFirst` is lazy. `delete` and `deleteFormsByMd5Hash` throw when any stored form lacks it, because `removeIf` scans every form. All these queries and removals here always succeed. `jrVersion` stays optional, as the source compares it with `Objects.equals`.
- `ApplicationConstants.SortingOrder` and `FormsColumns` are not part of this model. The sort codes 0 to 3 and the column names `displayName` and `date` are assumed.
- `DataDownloadList` scope:
  - The iteration order of the received details map (`keySet`) is the `ids` parameter.
  - This fork's record counts on `ServerFormDetails` are the `DataFormDetails` wrapper.
  - The `AsyncTask` status of a download task is the `finished` flag.
  - Starting the download task itself is left out.
- `TestSchedulerModel.TestScheduler` scope:
  - The `synchronized` lock, the wrapped scheduler, `isRunning` and the `TaskSpec` work are left out, because they concern threads and Android's work manager.
  - `repeat` and `immediate` appear only through `Increment`, which they call, and `Decrement`, which their runnables end with.
  - `getDeferredTasks` returns the list itself, which is the `deferredTasks` field.
- `TestSchedulerModel.TestScheduler.Increment`: the counter is an unbounded integer, so the 32-bit wrap-around of `int` is not modelled. No test schedules 2^31 tasks.
- `OpenRosaSource.OpenRosaFormSource.GetFormListUrl`, `GetSubmissionListUrl` and `GetDownloadSubmissionUrl` require a server URL. The fetchers check for one first and fail with `RuntimeFailure` otherwise, as the Java code would dereference null.
