/** Records exchanged between the form source, the fetcher and the synchronizer (package `forms`). */
module Forms {
  import opened Wrappers

  /** `FormSourceException.Type` */
  datatype SourceErrorType = AuthRequired | FetchError | SecurityError | Unreachable

  /** What a modelled Java method can throw instead of returning. */
  datatype Exception =
    | FormSourceException(kind: SourceErrorType, serverUrl: Option<string>)
      /** `ParsingException` of a submission download */
    | ParsingException
      /** an unchecked exception: a null dereference, an index out of range, a failed cast */
    | RuntimeFailure
      /** `JwtException`: an authentication token whose signature or issuer does not verify */
    | InvalidToken

  /** One form advertised by the server's form list. */
  datatype FormListItem = FormListItem(
    downloadUrl: Option<string>,
    formId: Option<string>,
    version: Option<string>,
    hashWithPrefix: Option<string>,
    name: string,
    manifestUrl: Option<string>)

  /** A media file named by a manifest or attached to a downloaded submission. */
  datatype MediaFile = MediaFile(filename: Option<string>, hash: Option<string>, downloadUrl: Option<string>)

  /** A parsed media manifest with the hash of the document it came from. */
  datatype ManifestFile = ManifestFile(hash: Option<string>, mediaFiles: seq<MediaFile>)

  /**
   * The result of parsing a submission download (`SubmissionManifest`). Its fields are fixed
   * at construction and the getters return them as given; the instance name may be absent.
   */
  datatype SubmissionManifest = SubmissionManifest(
    instanceId: string,
    submissionXml: string,
    attachmentList: seq<MediaFile>,
    instanceName: Option<string>)
  {
    function GetInstanceId(): string { instanceId }
    function GetInstanceName(): Option<string> { instanceName }
    function GetSubmissionXml(): string { submissionXml }
  }

  /** A submission manifest gives back what it was built from; being a value, it never changes. */
  lemma {:induction false} SubmissionManifestGetters(instanceId: string, submissionXml: string, attachments: seq<MediaFile>, instanceName: Option<string>)
    ensures var m := SubmissionManifest(instanceId, submissionXml, attachments, instanceName);
      && m.GetInstanceId() == instanceId && m.GetSubmissionXml() == submissionXml
      && m.GetInstanceName() == instanceName && m.attachmentList == attachments
  {
  }
}
