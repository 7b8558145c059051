/**
 * The match-exactly `ServerFormsSynchronizer`: makes the device's forms match the server's
 * list. Local forms the server no longer lists are deleted, forms that are new or updated on
 * the server are downloaded, and a download failure is reported only after every other
 * download was attempted.
 */
module MatchExactly {
  import opened Wrappers
  import opened Seqs
  import opened Forms
  import opened FormsRepository
  import opened ServerFormsDetails

  /**
   * A `FormDownloader` that records every form it is asked for (`RecordingFormDownloader`);
   * `fails` says for which forms `downloadForm` throws `FormDownloadException`.
   */
  class RecordingFormDownloader {
    const fails: ServerFormDetails -> bool
    var requests: seq<ServerFormDetails>

    constructor(fails: ServerFormDetails -> bool)
      ensures this.fails == fails && requests == []
    {
      this.fails := fails;
      requests := [];
    }

    /** `downloadForm`: records the request; false when the download throws. */
    method DownloadForm(form: ServerFormDetails) returns (ok: bool)
      modifies this
      ensures requests == old(requests) + [form]
      ensures ok == !fails(form)
    {
      requests := requests + [form];
      ok := !fails(form);
    }

    /** `getDownloadedForms`: the form ids of the requests, in order. */
    function GetDownloadedForms(): (ids: seq<Option<string>>)
      reads this
      ensures |ids| == |requests|
      ensures forall k :: 0 <= k < |ids| ==> ids[k] == requests[k].formId
    {
      seq(|requests|, k requires 0 <= k < |requests| reads this => requests[k].formId)
    }
  }

  /** A server form the synchronizer downloads: one not on the device, or one updated on the server. */
  predicate NeedsDownload(d: ServerFormDetails) {
    d.isNotOnDevice || d.isUpdated
  }

  /** `NeedsDownload`, as a filter. */
  function NeedingDownload(): ServerFormDetails -> bool {
    d => NeedsDownload(d)
  }

  /** The server lists a form with the local form's id. */
  predicate OnServer(serverForms: seq<ServerFormDetails>, f: Form) {
    exists k :: 0 <= k < |serverForms| && serverForms[k].formId == Some(f.jrFormId)
  }

  /**
   * The repository after the deletion loop has visited `device`, the forms read before it
   * started: each visited form the server does not list is deleted by id.
   */
  function Pruned(forms: seq<Form>, device: seq<Form>, serverForms: seq<ServerFormDetails>): seq<Form>
    decreases |device|
  {
    if device == [] then forms
    else
      var last := device[|device| - 1];
      var before := Pruned(forms, device[..|device| - 1], serverForms);
      if OnServer(serverForms, last) then before else Filter(before, WithoutId(last.id))
  }

  /**
   * A form survives the deletion loop exactly when it was there and no visited form the
   * server does not list has its id.
   */
  lemma {:induction false} PrunedKeeps(forms: seq<Form>, device: seq<Form>, serverForms: seq<ServerFormDetails>, f: Form)
    ensures f in Pruned(forms, device, serverForms) <==>
              f in forms && forall k :: 0 <= k < |device| && !OnServer(serverForms, device[k]) ==> device[k].id != f.id
    decreases |device|
  {
    if device != [] {
      var init := device[..|device| - 1];
      PrunedKeeps(forms, init, serverForms, f);
      assert forall k :: 0 <= k < |init| ==> init[k] == device[k];
    }
  }

  /**
   * With the whole repository visited and ids unique, exactly the forms the server still
   * lists remain: the match-exactly deletion.
   */
  lemma {:induction false} DeletesExactlyFormsNotListed(forms: seq<Form>, serverForms: seq<ServerFormDetails>, f: Form)
    requires forall i, j :: 0 <= i < |forms| && 0 <= j < |forms| && forms[i].id == forms[j].id ==> i == j
    ensures f in Pruned(forms, forms, serverForms) <==> f in forms && OnServer(serverForms, f)
  {
    PrunedKeeps(forms, forms, serverForms, f);
    if f in forms && OnServer(serverForms, f) {
      forall k | 0 <= k < |forms| && !OnServer(serverForms, forms[k])
        ensures forms[k].id != f.id
      {
        var i :| 0 <= i < |forms| && forms[i] == f;
      }
    }
    if f in forms && !OnServer(serverForms, f) {
      var i :| 0 <= i < |forms| && forms[i] == f;
      assert !OnServer(serverForms, forms[i]) && forms[i].id == f.id;
    }
  }

  /** Some form of `serverForms` that is downloaded fails to download. */
  predicate SomeDownloadFails(serverForms: seq<ServerFormDetails>, fails: ServerFormDetails -> bool) {
    exists k :: 0 <= k < |serverForms| && NeedsDownload(serverForms[k]) && fails(serverForms[k])
  }

  /** Appending a form adds its own failure, if it is downloaded, to those before it. */
  lemma {:induction false} SomeDownloadFailsAppend(s: seq<ServerFormDetails>, d: ServerFormDetails, fails: ServerFormDetails -> bool)
    ensures SomeDownloadFails(s + [d], fails) == (SomeDownloadFails(s, fails) || (NeedsDownload(d) && fails(d)))
  {
    var t := s + [d];
    assert forall k :: 0 <= k < |s| ==> t[k] == s[k];
    assert t[|s|] == d;
  }

  class ServerFormsSynchronizer {
    /** what `serverFormsDetailsFetcher.fetchFormDetails()` returns, or the exception it throws */
    const fetched: Result<seq<ServerFormDetails>, Exception>
    const formsRepository: InMemFormsRepository
    const formDownloader: RecordingFormDownloader

    constructor(fetched: Result<seq<ServerFormDetails>, Exception>, formsRepository: InMemFormsRepository,
                formDownloader: RecordingFormDownloader)
      ensures this.fetched == fetched && this.formsRepository == formsRepository && this.formDownloader == formDownloader
    {
      this.fetched := fetched;
      this.formsRepository := formsRepository;
      this.formDownloader := formDownloader;
    }

    /**
     * `synchronize`: an exception from fetching the details is rethrown unchanged and nothing
     * else happens. Otherwise the local forms the server does not list are deleted, every
     * form not on the device or updated is downloaded in list order and no other is, and a
     * `FETCH_ERROR` is thrown at the end when any of those downloads failed.
     */
    method Synchronize() returns (r: Outcome<Exception>)
      modifies formsRepository, formDownloader
      ensures fetched.Failure? ==>
        && r == Fail(fetched.error)
        && formsRepository.forms == old(formsRepository.forms)
        && formDownloader.requests == old(formDownloader.requests)
      ensures fetched.Success? ==>
        && formsRepository.forms == Pruned(old(formsRepository.forms), old(formsRepository.forms), fetched.value)
        && formDownloader.requests == old(formDownloader.requests) + Filter(fetched.value, NeedingDownload())
        && (r == Fail(FormSourceException(FetchError, None)) <==> SomeDownloadFails(fetched.value, formDownloader.fails))
        && (r.Pass? <==> !SomeDownloadFails(fetched.value, formDownloader.fails))
    {
      if fetched.Failure? {
        return Fail(fetched.error);
      }
      var formList := fetched.value;
      DeleteFormsNotListed(formList);
      var downloadException := DownloadNeeded(formList);
      if downloadException {
        return Fail(FormSourceException(FetchError, None));
      }
      return Pass;
    }

    /** The deletion loop of `synchronize`: each local form the server does not list is deleted by id. */
    method DeleteFormsNotListed(formList: seq<ServerFormDetails>)
      modifies formsRepository
      ensures formsRepository.forms == Pruned(old(formsRepository.forms), old(formsRepository.forms), formList)
    {
      var formsOnDevice := formsRepository.GetAll();
      var i := 0;
      while i < |formsOnDevice|
        invariant 0 <= i <= |formsOnDevice|
        invariant formsRepository.forms == Pruned(formsOnDevice, formsOnDevice[..i], formList)
      {
        assert formsOnDevice[..i + 1][..i] == formsOnDevice[..i];
        var form := formsOnDevice[i];
        if !OnServer(formList, form) {
          formsRepository.Delete(form.id);
        }
        i := i + 1;
      }
      assert formsOnDevice[..i] == formsOnDevice;
    }

    /**
     * The download loop of `synchronize`: every form that needs it is downloaded in list
     * order, a failure does not stop the loop, and the result says whether any failed.
     */
    method DownloadNeeded(formList: seq<ServerFormDetails>) returns (downloadException: bool)
      modifies formDownloader
      ensures formDownloader.requests == old(formDownloader.requests) + Filter(formList, NeedingDownload())
      ensures downloadException == SomeDownloadFails(formList, formDownloader.fails)
    {
      downloadException := false;
      var j := 0;
      while j < |formList|
        invariant 0 <= j <= |formList|
        invariant formDownloader.requests == old(formDownloader.requests) + Filter(formList[..j], NeedingDownload())
        invariant downloadException == SomeDownloadFails(formList[..j], formDownloader.fails)
      {
        var form := formList[j];
        assert formList[..j + 1] == formList[..j] + [form];
        FilterConcat(formList[..j], [form], NeedingDownload());
        FilterSingleton(form, NeedingDownload());
        if NeedsDownload(form) {
          var ok := formDownloader.DownloadForm(form);
          if !ok {
            downloadException := true;
          }
        }
        SomeDownloadFailsAppend(formList[..j], form, formDownloader.fails);
        j := j + 1;
      }
      assert formList[..j] == formList;
    }
  }
}
