/**
 * `OpenRosaFormSource`: the form source that talks to an OpenRosa server. It builds the
 * request URLs from its server URL, maps transport failures and HTTP error statuses to
 * `FormSourceException` types, and hands the fetched documents to the parsers of
 * `OpenRosaResponses`.
 */
module OpenRosaSource {
  import opened Wrappers
  import opened Text
  import opened Xml
  import opened Forms
  import opened OpenRosaResponses

  /** 401 Unauthorized (section 15.5.2 of RFC 9110) */
  const HttpUnauthorized := 401
  /** 404 Not Found (section 15.5.5 of RFC 9110) */
  const HttpNotFound := 404

  /** `DocumentFetchResult`: what the XML fetcher returns, with the parsed document's root element. */
  datatype DocumentFetchResult = DocumentFetchResult(
    errorMessage: Option<string>, responseCode: int, isOpenRosaResponse: bool, root: Element, hash: Option<string>)

  /** What a call of the XML fetcher does: return a result, or throw. */
  datatype FetchOutcome =
    | Fetched(result: DocumentFetchResult)
    | ThrewUnknownHost
    | ThrewSsl
    | ThrewOther

  /** `mapException`: an unknown host, an SSL failure and any other exception, each tagged with the server URL. */
  function MapException(o: FetchOutcome, serverUrl: Option<string>): (r: Result<DocumentFetchResult, Exception>)
    ensures o.Fetched? <==> r.Success?
    ensures o.Fetched? ==> r.value == o.result
    ensures o.ThrewUnknownHost? <==> r == Failure(FormSourceException(Unreachable, serverUrl))
    ensures o.ThrewSsl? <==> r == Failure(FormSourceException(SecurityError, serverUrl))
    ensures o.ThrewOther? <==> r == Failure(FormSourceException(FetchError, serverUrl))
  {
    match o
    case Fetched(d) => Success(d)
    case ThrewUnknownHost => Failure(FormSourceException(Unreachable, serverUrl))
    case ThrewSsl => Failure(FormSourceException(SecurityError, serverUrl))
    case ThrewOther => Failure(FormSourceException(FetchError, serverUrl))
  }

  /**
   * The exception the three server fetchers throw for a response with an error message:
   * 401 requires authentication, 404 is unreachable (with the server URL), anything else is a
   * fetch error (without it).
   */
  function ErrorForStatus(responseCode: int, serverUrl: Option<string>): (e: Exception)
    ensures responseCode == HttpUnauthorized <==> e == FormSourceException(AuthRequired, None)
    ensures responseCode == HttpNotFound <==> e == FormSourceException(Unreachable, serverUrl)
    ensures responseCode != HttpUnauthorized && responseCode != HttpNotFound <==> e == FormSourceException(FetchError, None)
  {
    if responseCode == HttpUnauthorized then FormSourceException(AuthRequired, None)
    else if responseCode == HttpNotFound then FormSourceException(Unreachable, serverUrl)
    else FormSourceException(FetchError, None)
  }

  /** The document a server fetcher goes on to parse, or the exception it throws first. */
  function Received(o: FetchOutcome, serverUrl: Option<string>): Result<DocumentFetchResult, Exception> {
    match MapException(o, serverUrl)
    case Failure(e) => Failure(e)
    case Success(d) => if d.errorMessage.Some? then Failure(ErrorForStatus(d.responseCode, serverUrl)) else Success(d)
  }

  /** What `fetchFormList` returns once the form-list document is received: its OpenRosa or legacy parse. */
  function FormListFrom(received: Result<DocumentFetchResult, Exception>): Result<seq<FormListItem>, Exception> {
    match received
    case Failure(e) => Failure(e)
    case Success(d) => if d.isOpenRosaResponse then FormListSpec(d.root) else LegacyFormListSpec(d.root)
  }

  /**
   * What `fetchManifest` returns when the fetcher did `o` with a manifest URL: a transport
   * failure as mapped, a fetch error for an error message or a non-OpenRosa response, and
   * otherwise the parsed manifest.
   */
  function ManifestFrom(o: FetchOutcome, serverUrl: Option<string>): Result<Option<ManifestFile>, Exception> {
    match MapException(o, serverUrl)
    case Failure(e) => Failure(e)
    case Success(d) =>
      if d.errorMessage.Some? || !d.isOpenRosaResponse then Failure(MalformedResponse)
      else match ManifestSpec(d.root, d.hash)
        case Failure(e) => Failure(e)
        case Success(m) => Success(Some(m))
  }

  /**
   * The three server fetchers report a response with an error message by its status alone:
   * the document is never parsed, so the form list fails the same way whatever the document,
   * the OpenRosa flag or the hash.
   */
  lemma {:induction false} ErrorResponsesMapByStatus(d: DocumentFetchResult, serverUrl: Option<string>)
    requires d.errorMessage.Some?
    ensures Received(Fetched(d), serverUrl) == Failure(ErrorForStatus(d.responseCode, serverUrl))
    ensures d.responseCode == HttpUnauthorized ==> Received(Fetched(d), serverUrl) == Failure(FormSourceException(AuthRequired, None))
    ensures d.responseCode == HttpNotFound ==> Received(Fetched(d), serverUrl) == Failure(FormSourceException(Unreachable, serverUrl))
    ensures FormListFrom(Received(Fetched(d), serverUrl)) == Failure(ErrorForStatus(d.responseCode, serverUrl))
    ensures forall d2: DocumentFetchResult :: d2.errorMessage.Some? && d2.responseCode == d.responseCode ==>
              FormListFrom(Received(Fetched(d2), serverUrl)) == FormListFrom(Received(Fetched(d), serverUrl))
  {
  }

  /**
   * `url` without its trailing slashes: a prefix of `url` that does not end in `/` and is
   * followed in `url` only by slashes.
   */
  function StripTrailingSlashes(url: string): (r: string)
    ensures r <= url
    ensures forall k :: |r| <= k < |url| ==> url[k] == '/'
    ensures !EndsWith(r, "/")
    decreases |url|
  {
    if EndsWith(url, "/") then StripTrailingSlashes(url[..|url| - 1]) else url
  }

  /** Stripping is idempotent: a stripped URL has nothing left to strip. */
  lemma {:induction false} StripTrailingSlashesIdempotent(url: string)
    ensures StripTrailingSlashes(StripTrailingSlashes(url)) == StripTrailingSlashes(url)
  {
  }

  /** Only the trailing slashes go: a URL that does not end in `/` is kept as it is. */
  lemma {:induction false} StripTrailingSlashesKeepsOthers(base: string, slashes: nat)
    requires !EndsWith(base, "/")
    ensures StripTrailingSlashes(base + seq(slashes, _ => '/')) == base
  {
    var u := base + seq(slashes, _ => '/');
    var r := StripTrailingSlashes(u);
    if base != [] {
      assert u[|base| - 1] == base[|base| - 1];
      assert base[|base| - 1..] == [base[|base| - 1]];
    }
    assert r == u[..|r|] == base;
  }

  function FormListUrl(serverUrl: string, formListPath: string): string {
    StripTrailingSlashes(serverUrl) + formListPath
  }

  function SubmissionListUrl(serverUrl: string, submissionListPath: string, formId: string, userName: string): string {
    StripTrailingSlashes(serverUrl) + submissionListPath
      + "?formId=" + formId + "&dataAssignee=" + userName + "&notCompletedOnly=true"
  }

  /** `encode` stands for `URLEncoder.encode(…, "UTF-8")`; a null version is written `null`. */
  function DownloadSubmissionUrl(serverUrl: string, submissionPath: string, formId: string, formVersion: Option<string>,
                                 submissionId: string, encode: string -> string): string {
    StripTrailingSlashes(serverUrl) + submissionPath + "?formId="
      + encode(formId + "[@version=Optional[" + Show(formVersion) + "] and @uiVersion=null]/data[@key=" + submissionId + "]")
  }

  /** The `while (url.endsWith("/"))` loop shared by the three URL builders. */
  method StripSlashes(url: string) returns (r: string)
    ensures r == StripTrailingSlashes(url)
  {
    r := url;
    while EndsWith(r, "/")
      invariant StripTrailingSlashes(r) == StripTrailingSlashes(url)
      decreases |r|
    {
      r := r[..|r| - 1];
    }
  }

  /** `OpenRosaXmlFetcher.getXML`: the server's answer to each URL, and the URLs asked so far. */
  class XmlFetcher {
    const respond: string -> FetchOutcome
    var requested: seq<string>

    constructor(respond: string -> FetchOutcome)
      ensures this.respond == respond && requested == []
    {
      this.respond := respond;
      requested := [];
    }

    method GetXml(url: string) returns (o: FetchOutcome)
      modifies this
      ensures o == respond(url) && requested == old(requested) + [url]
    {
      requested := requested + [url];
      o := respond(url);
    }
  }

  class OpenRosaFormSource {
    /** null when the deprecated constructor was used */
    var serverUrl: Option<string>
    const formListPath: string
    const submissionListPath: string
    const submissionPath: string
    const fetcher: XmlFetcher

    constructor(serverUrl: Option<string>, formListPath: string, submissionListPath: string, submissionPath: string, fetcher: XmlFetcher)
      ensures this.serverUrl == serverUrl && this.formListPath == formListPath
      ensures this.submissionListPath == submissionListPath && this.submissionPath == submissionPath
      ensures this.fetcher == fetcher
    {
      this.serverUrl := serverUrl;
      this.formListPath := formListPath;
      this.submissionListPath := submissionListPath;
      this.submissionPath := submissionPath;
      this.fetcher := fetcher;
    }

    /** `updateUrl` */
    method UpdateUrl(url: Option<string>)
      modifies this
      ensures serverUrl == url
    {
      serverUrl := url;
    }

    /** `getFormListURL` */
    method GetFormListUrl() returns (url: string)
      requires serverUrl.Some?
      ensures url == FormListUrl(serverUrl.value, formListPath)
    {
      url := StripSlashes(serverUrl.value);
      url := url + formListPath;
    }

    /** `getSubmissionListURL`; `userName` is the user name saved in the preferences. */
    method GetSubmissionListUrl(formId: string, userName: string) returns (url: string)
      requires serverUrl.Some?
      ensures url == SubmissionListUrl(serverUrl.value, submissionListPath, formId, userName)
    {
      url := StripSlashes(serverUrl.value);
      url := url + submissionListPath + "?formId=" + formId + "&dataAssignee=" + userName + "&notCompletedOnly=true";
    }

    /** `getDownloadSubmissionURL` */
    method GetDownloadSubmissionUrl(formId: string, formVersion: Option<string>, submissionId: string, encode: string -> string)
      returns (url: string)
      requires serverUrl.Some?
      ensures url == DownloadSubmissionUrl(serverUrl.value, submissionPath, formId, formVersion, submissionId, encode)
    {
      url := StripSlashes(serverUrl.value);
      url := url + submissionPath + "?formId="
        + encode(formId + "[@version=Optional[" + Show(formVersion) + "] and @uiVersion=null]/data[@key=" + submissionId + "]");
    }

    /** `fetchFormSubmissionIds`: without a server URL it throws before fetching. */
    method FetchFormSubmissionIds(formId: string, userName: string) returns (r: Result<seq<string>, Exception>)
      modifies fetcher
      ensures serverUrl.None? ==> r == Failure(RuntimeFailure) && fetcher.requested == old(fetcher.requested)
      ensures serverUrl.Some? ==>
        var url := SubmissionListUrl(serverUrl.value, submissionListPath, formId, userName);
        && fetcher.requested == old(fetcher.requested) + [url]
        && r == match Received(fetcher.respond(url), serverUrl)
                case Failure(e) => Failure(e)
                case Success(d) => SubmissionIdsSpec(d.root)
    {
      if serverUrl.None? {
        return Failure(RuntimeFailure);
      }
      var url := GetSubmissionListUrl(formId, userName);
      var o := fetcher.GetXml(url);
      var result := MapException(o, serverUrl);
      if result.Failure? {
        return Failure(result.error);
      }
      var d := result.value;
      if d.errorMessage.Some? {
        return Failure(ErrorForStatus(d.responseCode, serverUrl));
      }
      r := ParseSubmissionIds(d.root);
    }

    /** `fetchFormList`: the OpenRosa parser for an OpenRosa response, the legacy parser otherwise. */
    method FetchFormList() returns (r: Result<seq<FormListItem>, Exception>)
      modifies fetcher
      ensures serverUrl.None? ==> r == Failure(RuntimeFailure) && fetcher.requested == old(fetcher.requested)
      ensures serverUrl.Some? ==>
        var url := FormListUrl(serverUrl.value, formListPath);
        && fetcher.requested == old(fetcher.requested) + [url]
        && r == FormListFrom(Received(fetcher.respond(url), serverUrl))
    {
      if serverUrl.None? {
        return Failure(RuntimeFailure);
      }
      var url := GetFormListUrl();
      var o := fetcher.GetXml(url);
      var result := MapException(o, serverUrl);
      if result.Failure? {
        return Failure(result.error);
      }
      var d := result.value;
      if d.errorMessage.Some? {
        return Failure(ErrorForStatus(d.responseCode, serverUrl));
      }
      if d.isOpenRosaResponse {
        r := ParseFormList(d.root);
      } else {
        r := ParseLegacyFormList(d.root);
      }
    }

    /**
     * `fetchManifest`: no URL means no manifest and no request; an error message or a
     * non-OpenRosa response is a fetch error.
     */
    method FetchManifest(manifestUrl: Option<string>) returns (r: Result<Option<ManifestFile>, Exception>)
      modifies fetcher
      ensures manifestUrl.None? ==> r == Success(None) && fetcher.requested == old(fetcher.requested)
      ensures manifestUrl.Some? ==>
        && fetcher.requested == old(fetcher.requested) + [manifestUrl.value]
        && r == ManifestFrom(fetcher.respond(manifestUrl.value), serverUrl)
    {
      if manifestUrl.None? {
        return Success(None);
      }
      var o := fetcher.GetXml(manifestUrl.value);
      var result := MapException(o, serverUrl);
      if result.Failure? {
        return Failure(result.error);
      }
      var d := result.value;
      if d.errorMessage.Some? {
        return Failure(MalformedResponse);
      }
      if !d.isOpenRosaResponse {
        return Failure(MalformedResponse);
      }
      var m := ParseManifest(d.root, d.hash);
      if m.Failure? {
        return Failure(m.error);
      }
      return Success(Some(m.value));
    }

    /** `fetchData`: download one submission; `serialize` stands for the KXml serializer. */
    method FetchData(formId: string, formVersion: Option<string>, submissionId: string,
                     encode: string -> string, serialize: Element -> string)
      returns (r: Result<SubmissionManifest, Exception>)
      modifies fetcher
      ensures serverUrl.None? ==> r == Failure(RuntimeFailure) && fetcher.requested == old(fetcher.requested)
      ensures serverUrl.Some? ==>
        var url := DownloadSubmissionUrl(serverUrl.value, submissionPath, formId, formVersion, submissionId, encode);
        && fetcher.requested == old(fetcher.requested) + [url]
        && r == match Received(fetcher.respond(url), serverUrl)
                case Failure(e) => Failure(e)
                case Success(d) => SubmissionResponseSpec(d.root, serialize)
    {
      if serverUrl.None? {
        return Failure(RuntimeFailure);
      }
      var url := GetDownloadSubmissionUrl(formId, formVersion, submissionId, encode);
      var o := fetcher.GetXml(url);
      var result := MapException(o, serverUrl);
      if result.Failure? {
        return Failure(result.error);
      }
      var d := result.value;
      if d.errorMessage.Some? {
        return Failure(ErrorForStatus(d.responseCode, serverUrl));
      }
      r := ParseSubmissionResponse(d.root, serialize);
    }
  }
}
