/**
 * `ServerFormsDetailsFetcher`: for every form on the server's form list, whether the device
 * lacks it and whether the server has a newer version of it or of its media files.
 */
module ServerFormsDetails {
  import opened Wrappers
  import opened Seqs
  import opened Text
  import opened Forms
  import opened FormsRepository
  import opened OpenRosaSource

  /** What the server offers for one form, with the two flags the synchronizer acts on. */
  datatype ServerFormDetails = ServerFormDetails(
    formName: string,
    downloadUrl: Option<string>,
    manifestUrl: Option<string>,
    formId: Option<string>,
    formVersion: Option<string>,
    hash: Option<string>,
    isNotOnDevice: bool,
    isUpdated: bool,
    manifest: Option<ManifestFile>)

  /**
   * `mediaFileRepository.getAll(formId, formVersion)` followed by `FileUtils.getMd5Hash` of
   * each file: no list when the repository returns null, and no hash for a file that cannot
   * be read.
   */
  type LocalMedia = (Option<string>, Option<string>) -> Option<seq<Option<string>>>

  /** The prefix of the hashes that the server reports. */
  const Md5Prefix := "md5:"

  /**
   * `getMd5HashWithoutPrefix`: null for a null or empty hash, the hash minus its first four
   * characters otherwise; a shorter non-empty hash makes `substring` throw.
   */
  function Md5WithoutPrefix(hash: Option<string>): (r: Result<Option<string>, Exception>)
    ensures r == Success(None) <==> hash.None? || hash == Some("")
    ensures r.Failure? <==> hash.Some? && 0 < |hash.value| < |Md5Prefix|
    ensures r.Failure? ==> r.error == RuntimeFailure
    ensures r.Success? && r.value.Some? ==>
              hash.Some? && |hash.value| >= |Md5Prefix| && hash.value == hash.value[..|Md5Prefix|] + r.value.value
  {
    if hash.None? || hash.value == "" then Success(None)
    else if |hash.value| < |Md5Prefix| then Failure(RuntimeFailure)
    else Success(Some(hash.value[|Md5Prefix|..]))
  }

  /** A hash that carries the prefix loses exactly the prefix. */
  lemma {:induction false} Md5PrefixRemoved(h: string)
    ensures Md5WithoutPrefix(Some(Md5Prefix + h)) == Success(Some(h))
  {
    assert (Md5Prefix + h)[|Md5Prefix|..] == h;
  }

  /**
   * `isNewerFormVersionAvailable`: never for a form without a hash; otherwise exactly when no
   * local form has the server's hash without its prefix. An empty hash becomes null, which no
   * form has, so it always counts as newer.
   */
  function IsNewerFormVersionAvailable(local: seq<Form>, item: FormListItem): (r: Result<bool, Exception>)
    ensures item.hashWithPrefix.None? ==> r == Success(false)
    ensures item.hashWithPrefix == Some("") ==> r == Success(true)
    ensures r.Failure? <==> item.hashWithPrefix.Some? && 0 < |item.hashWithPrefix.value| < |Md5Prefix|
    ensures r.Failure? ==> r.error == RuntimeFailure
    ensures item.hashWithPrefix.Some? && |item.hashWithPrefix.value| >= |Md5Prefix| ==>
              (r == Success(true) <==> forall i :: 0 <= i < |local| ==> local[i].md5Hash != item.hashWithPrefix.value[|Md5Prefix|..])
  {
    if item.hashWithPrefix.None? then Success(false)
    else match Md5WithoutPrefix(item.hashWithPrefix)
      case Failure(e) => Failure(e)
      case Success(h) => Success(GetByMd5Hash(local, h).None?)
  }

  /**
   * Whether `isMediaFileAlreadyDownloaded` finds `file` among the local media: a zip file
   * always counts as downloaded; any other counts when its hash without the first four
   * characters is the MD5 of some local file. A missing name or hash, or a hash shorter than
   * four characters, throws.
   */
  function AlreadyDownloaded(localHashes: seq<Option<string>>, file: MediaFile): Result<bool, Exception> {
    if file.filename.None? then Failure(RuntimeFailure)
    else if EndsWith(file.filename.value, ".zip") then Success(true)
    else if file.hash.None? || |file.hash.value| < 4 then Failure(RuntimeFailure)
    else Success(exists i :: 0 <= i < |localHashes| && localHashes[i] == Some(file.hash.value[4..]))
  }

  /** `isMediaFileAlreadyDownloaded`: the early-return search over the local files. */
  method IsMediaFileAlreadyDownloaded(localHashes: seq<Option<string>>, file: MediaFile) returns (r: Result<bool, Exception>)
    ensures r == AlreadyDownloaded(localHashes, file)
  {
    if file.filename.None? {
      return Failure(RuntimeFailure);
    }
    if EndsWith(file.filename.value, ".zip") {
      return Success(true);
    }
    if file.hash.None? || |file.hash.value| < 4 {
      return Failure(RuntimeFailure);
    }
    var mediaFileHash := file.hash.value[4..];
    var i := 0;
    while i < |localHashes|
      invariant 0 <= i <= |localHashes|
      invariant forall k :: 0 <= k < i ==> localHashes[k] != Some(mediaFileHash)
    {
      if localHashes[i] == Some(mediaFileHash) {
        return Success(true);
      }
      i := i + 1;
    }
    return Success(false);
  }

  /**
   * The loop of `areNewerMediaFilesAvailable` over the manifest's files, with local files
   * present: true at the first file not yet downloaded, and an exception from the check of
   * a file stops the search.
   */
  function NewerAmong(localHashes: seq<Option<string>>, files: seq<MediaFile>): (r: Result<bool, Exception>)
    ensures r.Failure? ==> r.error == RuntimeFailure
    ensures r == Success(false) ==> forall k :: 0 <= k < |files| ==> AlreadyDownloaded(localHashes, files[k]) == Success(true)
  {
    if files == [] then Success(false)
    else match AlreadyDownloaded(localHashes, files[0])
      case Failure(e) => Failure(e)
      case Success(downloaded) =>
        if !downloaded then Success(true)
        else
          var rest := NewerAmong(localHashes, files[1..]);
          assert forall k :: 1 <= k < |files| ==> files[1..][k - 1] == files[k];
          rest
  }

  /**
   * `areNewerMediaFilesAvailable`: with no local file list, exactly when the manifest names
   * some file; otherwise the search above.
   */
  function NewerMediaFiles(localMedia: Option<seq<Option<string>>>, files: seq<MediaFile>): (r: Result<bool, Exception>)
    ensures localMedia.None? ==> r == Success(files != [])
    ensures r.Failure? ==> r.error == RuntimeFailure
  {
    if localMedia.None? then Success(files != []) else NewerAmong(localMedia.value, files)
  }

  /** When every file can be checked, newer media exists exactly when some file is not downloaded. */
  lemma {:induction false} NewerAmongWhenCheckable(localHashes: seq<Option<string>>, files: seq<MediaFile>)
    requires forall k :: 0 <= k < |files| ==> AlreadyDownloaded(localHashes, files[k]).Success?
    ensures NewerAmong(localHashes, files) == Success(exists k :: 0 <= k < |files| && AlreadyDownloaded(localHashes, files[k]) == Success(false))
  {
    if files != [] {
      assert forall k :: 0 <= k < |files| - 1 ==> files[1..][k] == files[k + 1];
      NewerAmongWhenCheckable(localHashes, files[1..]);
      if AlreadyDownloaded(localHashes, files[0]) == Success(true) {
        var e := exists k :: 0 <= k < |files| && AlreadyDownloaded(localHashes, files[k]) == Success(false);
        if e {
          var k :| 0 <= k < |files| && AlreadyDownloaded(localHashes, files[k]) == Success(false);
          assert files[1..][k - 1] == files[k];
        }
      }
    }
  }

  /** Zip files never make media newer: a manifest of only zip files needs no update. */
  lemma {:induction false} ZipFilesNeverNewer(localHashes: seq<Option<string>>, files: seq<MediaFile>)
    requires forall k :: 0 <= k < |files| ==> files[k].filename.Some? && EndsWith(files[k].filename.value, ".zip")
    ensures NewerAmong(localHashes, files) == Success(false)
  {
    if files != [] {
      assert forall k :: 0 <= k < |files| - 1 ==> files[1..][k] == files[k + 1];
      ZipFilesNeverNewer(localHashes, files[1..]);
    }
  }

  /** `areNewerMediaFilesAvailable`, with the local media of the form version given. */
  method AreNewerMediaFilesAvailable(localMedia: Option<seq<Option<string>>>, files: seq<MediaFile>) returns (r: Result<bool, Exception>)
    ensures r == NewerMediaFiles(localMedia, files)
  {
    if localMedia.None? {
      return Success(files != []);
    }
    var i := 0;
    while i < |files|
      invariant 0 <= i <= |files|
      invariant NewerAmong(localMedia.value, files) == NewerAmong(localMedia.value, files[i..])
    {
      assert files[i..][1..] == files[i + 1..];
      var downloaded := IsMediaFileAlreadyDownloaded(localMedia.value, files[i]);
      if downloaded.Failure? {
        return Failure(downloaded.error);
      }
      if !downloaded.value {
        return Success(true);
      }
      i := i + 1;
    }
    return Success(false);
  }

  /**
   * `getManifestFile`: no manifest without a URL; a `FormSourceException` from the fetch is
   * swallowed and gives no manifest; any other exception goes on up.
   */
  function ManifestFetched(url: Option<string>, manifestOf: string -> Result<Option<ManifestFile>, Exception>): (r: Result<Option<ManifestFile>, Exception>)
    ensures url.None? ==> r == Success(None)
    ensures url.Some? && manifestOf(url.value).Failure? && manifestOf(url.value).error.FormSourceException? ==> r == Success(None)
    ensures url.Some? && !(manifestOf(url.value).Failure? && manifestOf(url.value).error.FormSourceException?) ==> r == manifestOf(url.value)
    ensures r.Failure? ==> !r.error.FormSourceException?
  {
    if url.None? then Success(None)
    else match manifestOf(url.value)
      case Failure(e) => if e.FormSourceException? then Success(None) else Failure(e)
      case Success(m) => Success(m)
  }

  /** The form has a copy on the device that is not deleted. */
  predicate OnDevice(local: seq<Form>, item: FormListItem) {
    exists i :: 0 <= i < |local| && IsLiveWithFormId(local[i], item.formId)
  }

  /**
   * `d` reports `item`: the item's fields are copied, the form is not on the device exactly
   * when no live local form has its id, and a form not on the device is never updated.
   */
  predicate Describes(local: seq<Form>, item: FormListItem, d: ServerFormDetails) {
    && d.formName == item.name && d.downloadUrl == item.downloadUrl
    && d.manifestUrl == item.manifestUrl && d.formId == item.formId
    && d.formVersion == item.version && d.hash == item.hashWithPrefix
    && (d.isNotOnDevice <==> !OnDevice(local, item))
    && (d.isNotOnDevice ==> !d.isUpdated)
  }

  /** `d` reports `item` as the loop does, with no manifest when the item names none. */
  predicate DescribesFetched(local: seq<Form>, item: FormListItem, d: ServerFormDetails) {
    Describes(local, item, d) && (item.manifestUrl.None? ==> d.manifest.None?)
  }

  /**
   * One pass of the `fetchFormDetails` loop once the manifest is known: the item's fields
   * are copied; the form is not on the device when no live local form has its id; it is
   * updated only when it is on the device and the form version, or failing that its media,
   * is newer.
   */
  function ItemDetails(local: seq<Form>, item: FormListItem, manifest: Option<ManifestFile>, media: LocalMedia): (r: Result<ServerFormDetails, Exception>)
    ensures r.Success? ==> Describes(local, item, r.value) && r.value.manifest == manifest
    ensures !OnDevice(local, item) ==> r.Success?
    ensures OnDevice(local, item) && IsNewerFormVersionAvailable(local, item) == Success(true) ==> r.Success? && r.value.isUpdated
    ensures (OnDevice(local, item) && IsNewerFormVersionAvailable(local, item) == Success(false) && (manifest.None? || manifest.value.mediaFiles == [])) ==>
              r.Success? && !r.value.isUpdated
    ensures (OnDevice(local, item) && IsNewerFormVersionAvailable(local, item) == Success(false) && manifest.Some? && manifest.value.mediaFiles != []) ==>
                 (r.Success? <==> NewerMediaFiles(media(item.formId, item.version), manifest.value.mediaFiles).Success?)
                  && (r.Success? ==> r.value.isUpdated == NewerMediaFiles(media(item.formId, item.version), manifest.value.mediaFiles).value)
    ensures r.Failure? ==> r.error == RuntimeFailure
  {
    var alreadyDownloaded := GetByJrFormIdNotDeleted(local, item.formId) != [];
    var updated: Result<bool, Exception> :=
      if !alreadyDownloaded then Success(false)
      else match IsNewerFormVersionAvailable(local, item)
        case Failure(e) => Failure(e)
        case Success(newer) =>
          if newer then Success(true)
          else if manifest.Some? && manifest.value.mediaFiles != [] then
            NewerMediaFiles(media(item.formId, item.version), manifest.value.mediaFiles)
          else Success(false);
    match updated
    case Failure(e) => Failure(e)
    case Success(u) =>
      Success(ServerFormDetails(item.name, item.downloadUrl, item.manifestUrl, item.formId, item.version, item.hashWithPrefix,
                                !alreadyDownloaded, u, manifest))
  }

  /**
   * One pass of the `fetchFormDetails` loop: the manifest, when the form names one, then the
   * form's record, or the exception that escapes the pass.
   */
  function PassDetails(local: seq<Form>, item: FormListItem, manifestOf: string -> Result<Option<ManifestFile>, Exception>,
                       media: LocalMedia): (r: Result<ServerFormDetails, Exception>)
    ensures r.Success? ==> DescribesFetched(local, item, r.value)
    ensures r.Failure? ==> !r.error.FormSourceException?
  {
    var mf := ManifestFetched(item.manifestUrl, manifestOf);
    if mf.Failure? then Failure(mf.error) else ItemDetails(local, item, mf.value, media)
  }

  /**
   * What `fetchFormDetails` returns for the listed `items`: one details record per item, in
   * order, or the first exception that escapes the loop.
   */
  function Details(items: seq<FormListItem>, local: seq<Form>, manifestOf: string -> Result<Option<ManifestFile>, Exception>,
                   media: LocalMedia): (r: Result<seq<ServerFormDetails>, Exception>)
    ensures r.Success? ==> |r.value| == |items|
    ensures r.Failure? ==> !r.error.FormSourceException?
  {
    if items == [] then Success([])
    else
      var d := PassDetails(local, items[0], manifestOf, media);
      if d.Failure? then Failure(d.error) else Prepend(d.value, Details(items[1..], local, manifestOf, media))
  }

  /**
   * The details list has one record per listed form, in list order, each reporting its form:
   * fields copied, not on the device exactly when no live local copy exists, never updated
   * when not on the device, and without a manifest when the form names none.
   */
  lemma {:induction false} DetailsDescribeItems(items: seq<FormListItem>, local: seq<Form>,
                                                manifestOf: string -> Result<Option<ManifestFile>, Exception>, media: LocalMedia)
    requires Details(items, local, manifestOf, media).Success?
    ensures var ds := Details(items, local, manifestOf, media).value;
      && |ds| == |items|
      && forall k :: 0 <= k < |items| ==> DescribesFetched(local, items[k], ds[k])
  {
    if items != [] {
      var d := PassDetails(local, items[0], manifestOf, media).value;
      var rest := Details(items[1..], local, manifestOf, media).value;
      DetailsDescribeItems(items[1..], local, manifestOf, media);
      var ds := Details(items, local, manifestOf, media).value;
      assert ds == [d] + rest;
      assert items == [items[0]] + items[1..];
      PointwiseCons(items[0], items[1..], d, rest, (it: FormListItem, e: ServerFormDetails) => DescribesFetched(local, it, e));
    }
  }

  /** The manifest URLs requested while computing `Details`: up to the item whose pass throws. */
  function Requests(items: seq<FormListItem>, local: seq<Form>, manifestOf: string -> Result<Option<ManifestFile>, Exception>,
                    media: LocalMedia): seq<string>
  {
    if items == [] then []
    else Asked(items[0]) + (if PassDetails(local, items[0], manifestOf, media).Failure? then [] else Requests(items[1..], local, manifestOf, media))
  }

  /** The manifest URLs of the items that have one, in order. */
  function ManifestUrls(items: seq<FormListItem>): (r: seq<string>)
    ensures forall u :: u in r <==> exists k :: 0 <= k < |items| && items[k].manifestUrl == Some(u)
  {
    if items == [] then []
    else
      var rest := ManifestUrls(items[1..]);
      assert forall k :: 1 <= k < |items| ==> items[1..][k - 1] == items[k];
      (if items[0].manifestUrl.Some? then [items[0].manifestUrl.value] else []) + rest
  }

  /**
   * When the whole list is processed, a manifest is requested for exactly the items that have
   * a manifest URL, once each, in list order, and for no other.
   */
  lemma {:induction false} ManifestsFetchedOnlyWithUrl(items: seq<FormListItem>, local: seq<Form>,
                                                       manifestOf: string -> Result<Option<ManifestFile>, Exception>, media: LocalMedia)
    requires Details(items, local, manifestOf, media).Success?
    ensures Requests(items, local, manifestOf, media) == ManifestUrls(items)
  {
    if items != [] {
      ManifestsFetchedOnlyWithUrl(items[1..], local, manifestOf, media);
    }
  }

  /** The manifest URL a pass of the loop requests for `item`, if it has one. */
  function Asked(item: FormListItem): seq<string> {
    if item.manifestUrl.Some? then [item.manifestUrl.value] else []
  }

  /** One pass of the loop, unfolded at position `i`. */
  lemma {:induction false} DetailsStep(items: seq<FormListItem>, i: nat, local: seq<Form>,
                    manifestOf: string -> Result<Option<ManifestFile>, Exception>, media: LocalMedia)
    requires i < |items|
    ensures var d := PassDetails(local, items[i], manifestOf, media);
      d.Failure? ==>
        Details(items[i..], local, manifestOf, media) == Failure(d.error) && Requests(items[i..], local, manifestOf, media) == Asked(items[i]) + []
    ensures var d := PassDetails(local, items[i], manifestOf, media);
      d.Success? ==>
        && Details(items[i..], local, manifestOf, media) == Prepend(d.value, Details(items[i + 1..], local, manifestOf, media))
        && Requests(items[i..], local, manifestOf, media) == Asked(items[i]) + Requests(items[i + 1..], local, manifestOf, media)
  {
    assert items[i..][0] == items[i] && items[i..][1..] == items[i + 1..];
  }

  /** `formSource.fetchManifest` as a function of the URL, for a source with these settings. */
  function ManifestSource(serverUrl: Option<string>, respond: string -> FetchOutcome): string -> Result<Option<ManifestFile>, Exception> {
    u => ManifestFrom(respond(u), serverUrl)
  }

  /** What `formSource.fetchFormList` returns for a source with these settings. */
  function Listed(serverUrl: Option<string>, formListPath: string, respond: string -> FetchOutcome): Result<seq<FormListItem>, Exception> {
    if serverUrl.None? then Failure(RuntimeFailure)
    else FormListFrom(Received(respond(FormListUrl(serverUrl.value, formListPath)), serverUrl))
  }

  /**
   * The fetcher; the disk synchronisation it starts with is not part of this model, and its
   * forms repository is the in-memory one.
   */
  class ServerFormsDetailsFetcher {
    const formsRepository: InMemFormsRepository
    const formSource: OpenRosaFormSource
    const localMedia: LocalMedia

    constructor(formsRepository: InMemFormsRepository, formSource: OpenRosaFormSource, localMedia: LocalMedia)
      ensures this.formsRepository == formsRepository && this.formSource == formSource && this.localMedia == localMedia
    {
      this.formsRepository := formsRepository;
      this.formSource := formSource;
      this.localMedia := localMedia;
    }

    /** `getManifestFile` for a form with a manifest URL. */
    method GetManifestFile(url: string) returns (r: Result<Option<ManifestFile>, Exception>)
      modifies formSource.fetcher
      ensures r == ManifestFetched(Some(url), ManifestSource(formSource.serverUrl, formSource.fetcher.respond))
      ensures formSource.fetcher.requested == old(formSource.fetcher.requested) + [url]
    {
      var m := formSource.FetchManifest(Some(url));
      if m.Failure? && m.error.FormSourceException? {
        return Success(None);
      }
      return m;
    }

    /** The flags of one pass of the `fetchFormDetails` loop, set step by step. */
    method DescribeItem(local: seq<Form>, item: FormListItem, manifest: Option<ManifestFile>) returns (r: Result<ServerFormDetails, Exception>)
      ensures r == ItemDetails(local, item, manifest, localMedia)
    {
      var thisFormAlreadyDownloaded := GetByJrFormIdNotDeleted(local, item.formId) != [];
      var isNewerFormVersionAvailable := false;
      if thisFormAlreadyDownloaded {
        var newer := IsNewerFormVersionAvailable(local, item);
        if newer.Failure? {
          return Failure(newer.error);
        }
        if newer.value {
          isNewerFormVersionAvailable := true;
        } else if manifest.Some? {
          var newMediaFiles := manifest.value.mediaFiles;
          if newMediaFiles != [] {
            var media := AreNewerMediaFilesAvailable(localMedia(item.formId, item.version), newMediaFiles);
            if media.Failure? {
              return Failure(media.error);
            }
            isNewerFormVersionAvailable := media.value;
          }
        }
      }
      var serverFormDetails := ServerFormDetails(item.name, item.downloadUrl, item.manifestUrl, item.formId, item.version,
                                                 item.hashWithPrefix, !thisFormAlreadyDownloaded, isNewerFormVersionAvailable, manifest);
      return Success(serverFormDetails);
    }

    /** One pass of the `fetchFormDetails` loop: the manifest fetch, if any, then the flags. */
    method FetchItemDetails(local: seq<Form>, item: FormListItem) returns (r: Result<ServerFormDetails, Exception>)
      modifies formSource.fetcher
      ensures r == PassDetails(local, item, ManifestSource(formSource.serverUrl, formSource.fetcher.respond), localMedia)
      ensures formSource.fetcher.requested == old(formSource.fetcher.requested) + Asked(item)
    {
      var manifest: Option<ManifestFile> := None;
      if item.manifestUrl.Some? {
        var m := GetManifestFile(item.manifestUrl.value);
        if m.Failure? {
          return Failure(m.error);
        }
        manifest := m.value;
      } else {
        assert old(formSource.fetcher.requested) + [] == old(formSource.fetcher.requested);
      }
      r := DescribeItem(local, item, manifest);
    }

    /**
     * `fetchFormDetails`: the form list, then one details record per listed form, fetching
     * each manifest that has a URL; the list is requested first, then the manifests in order.
     */
    method FetchFormDetails() returns (r: Result<seq<ServerFormDetails>, Exception>)
      modifies formSource.fetcher
      ensures var listed := Listed(formSource.serverUrl, formSource.formListPath, formSource.fetcher.respond);
        && (listed.Failure? ==> r == Failure(listed.error))
        && (listed.Success? ==>
              r == Details(listed.value, formsRepository.forms, ManifestSource(formSource.serverUrl, formSource.fetcher.respond), localMedia))
        && (formSource.serverUrl.None? ==> formSource.fetcher.requested == old(formSource.fetcher.requested))
        && (formSource.serverUrl.Some? ==>
              formSource.fetcher.requested == old(formSource.fetcher.requested) + [FormListUrl(formSource.serverUrl.value, formSource.formListPath)]
                + (if listed.Failure? then []
                   else Requests(listed.value, formsRepository.forms, ManifestSource(formSource.serverUrl, formSource.fetcher.respond), localMedia)))
    {
      var listed := formSource.FetchFormList();
      if listed.Failure? {
        return Failure(listed.error);
      }
      r := FetchAllDetails(listed.value, formsRepository.forms);
    }

    /** The loop of `fetchFormDetails`: one details record per listed form, in list order. */
    method FetchAllDetails(items: seq<FormListItem>, local: seq<Form>) returns (r: Result<seq<ServerFormDetails>, Exception>)
      modifies formSource.fetcher
      ensures r == Details(items, local, ManifestSource(formSource.serverUrl, formSource.fetcher.respond), localMedia)
      ensures formSource.fetcher.requested ==
        old(formSource.fetcher.requested) + Requests(items, local, ManifestSource(formSource.serverUrl, formSource.fetcher.respond), localMedia)
    {
      ghost var manifestOf := ManifestSource(formSource.serverUrl, formSource.fetcher.respond);
      ghost var start := formSource.fetcher.requested;
      ghost var done: seq<string> := [];
      var details: seq<ServerFormDetails> := [];
      assert start + done == start;
      assert Requests(items, local, manifestOf, localMedia) == done + Requests(items[0..], local, manifestOf, localMedia) by {
        assert items[0..] == items;
      }
      PrefixedNil(Details(items, local, manifestOf, localMedia));
      var i := 0;
      while i < |items|
        invariant 0 <= i <= |items|
        invariant formSource.fetcher.requested == start + done
        invariant Details(items, local, manifestOf, localMedia) == Prefixed(details, Details(items[i..], local, manifestOf, localMedia))
        invariant Requests(items, local, manifestOf, localMedia) == done + Requests(items[i..], local, manifestOf, localMedia)
      {
        DetailsStep(items, i, local, manifestOf, localMedia);
        var item := items[i];
        var serverFormDetails := FetchItemDetails(local, item);
        ConcatAssociative(start, done, Asked(item));
        if serverFormDetails.Failure? {
          return Failure(serverFormDetails.error);
        }
        ConcatAssociative(done, Asked(item), Requests(items[i + 1..], local, manifestOf, localMedia));
        done := done + Asked(item);
        PrefixedPrepend(details, serverFormDetails.value, Details(items[i + 1..], local, manifestOf, localMedia));
        details := details + [serverFormDetails.value];
        i := i + 1;
      }
      assert items[i..] == [];
      assert details + [] == details;
      return Success(details);
    }
  }
}
