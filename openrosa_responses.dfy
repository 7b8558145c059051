/**
 * The private parsers of `OpenRosaFormSource`: the OpenRosa 1.0 form list, the pre-1.0
 * ("legacy") form list, the media manifest, the submission-id list and a submission download.
 * Each parser is a loop over the children of the document's root element, proved equal to a
 * recursive function that says what the document denotes.
 */
module OpenRosaResponses {
  import opened Wrappers
  import opened Seqs
  import opened Text
  import opened Xml
  import opened Forms

  const XformsListNamespace := "http://openrosa.org/xforms/xformsList"
  const XformsManifestNamespace := "http://openrosa.org/xforms/xformsManifest"
  const XformsNamespace := "http://openrosa.org/xforms"
  const SubmissionsNamespace := "http://opendatakit.org/submissions"

  /** `new FormSourceException(FETCH_ERROR)`: no server URL attached. */
  const MalformedResponse := FormSourceException(FetchError, None)

  predicate IsXformsListNamespaced(e: Element) {
    EqualsIgnoreCase(e.namespace, XformsListNamespace)
  }

  predicate IsXformsManifestNamespaced(e: Element) {
    EqualsIgnoreCase(e.namespace, XformsManifestNamespace)
  }

  /** How the parsers recognise a field element among an entry's children. */
  datatype FieldMatch =
      /** element in namespace `ns` (ignoring case) whose name is exactly the tag */
    | InNamespace(ns: string)
      /** element in any namespace whose name equals the tag ignoring case */
    | AnyNamespaceIgnoringCase

  predicate IsField(n: Node, m: FieldMatch, tag: string) {
    n.ElementNode? &&
    match m
    case InNamespace(ns) => EqualsIgnoreCase(n.element.namespace, ns) && n.element.name == tag
    case AnyNamespaceIgnoringCase => EqualsIgnoreCase(n.element.name, tag)
  }

  /**
   * The text of field `tag` among `cs`: each occurrence overwrites the one before, so it is
   * the text of the last occurrence, and absent when the field does not occur.
   */
  function LastFieldText(cs: seq<Node>, m: FieldMatch, tag: string): (r: Option<string>)
    decreases |cs|
    ensures (forall i :: 0 <= i < |cs| ==> !IsField(cs[i], m, tag)) ==> r.None?
    ensures forall i :: 0 <= i < |cs| && IsField(cs[i], m, tag) && (forall j :: i < j < |cs| ==> !IsField(cs[j], m, tag))
                      ==> r == ElementText(cs[i].element)
  {
    if cs == [] then None
    else
      var n := |cs| - 1;
      if IsField(cs[n], m, tag) then ElementText(cs[n].element)
      else
        var init := cs[..n];
        assert forall i :: 0 <= i < n ==> init[i] == cs[i];
        LastFieldText(init, m, tag)
  }

  /** The parsers' "an empty string means absent". */
  function NonEmpty(t: Option<string>): (r: Option<string>)
    ensures r.Some? ==> r.value != ""
    ensures r.None? <==> t.None? || t.value == ""
    ensures r.Some? ==> r == t
  {
    if t == Some("") then None else t
  }

  /** The `version` field's rule: only whitespace means absent. */
  function NonBlank(t: Option<string>): (r: Option<string>)
    ensures r.Some? ==> Trim(r.value) != ""
    ensures r.None? <==> t.None? || Trim(t.value) == ""
    ensures r.Some? ==> r == t
  {
    if t.Some? && Trim(t.value) == "" then None else t
  }

  /** The step from `cs[..j]` to `cs[..j + 1]` of a field-reading loop. */
  lemma {:induction false} LastFieldTextStep(cs: seq<Node>, j: nat, m: FieldMatch, tag: string)
    requires j < |cs|
    ensures LastFieldText(cs[..j + 1], m, tag)
         == if IsField(cs[j], m, tag) then ElementText(cs[j].element) else LastFieldText(cs[..j], m, tag)
  {
    assert cs[..j + 1][..j] == cs[..j];
  }

  // ---------------------------------------------------------------- OpenRosa 1.0 form list

  /** The fields of an `<xform>` entry (locals of `parseFormList`). */
  datatype XformFields = XformFields(
    formId: Option<string>, name: Option<string>, version: Option<string>,
    majorMinorVersion: Option<string>, description: Option<string>,
    downloadUrl: Option<string>, manifestUrl: Option<string>, hash: Option<string>)

  const NoXformFields := XformFields(None, None, None, None, None, None, None, None)

  function XformField(cs: seq<Node>, tag: string): Option<string> {
    LastFieldText(cs, InNamespace(XformsListNamespace), tag)
  }

  /** The fields an `<xform>` entry with children `cs` denotes. */
  function XformFieldsOf(cs: seq<Node>): XformFields {
    XformFields(
      NonEmpty(XformField(cs, "formID")), NonEmpty(XformField(cs, "name")),
      NonBlank(XformField(cs, "version")), NonEmpty(XformField(cs, "majorMinorVersion")),
      NonEmpty(XformField(cs, "descriptionText")), NonEmpty(XformField(cs, "downloadUrl")),
      NonEmpty(XformField(cs, "manifestUrl")), NonEmpty(XformField(cs, "hash")))
  }

  /** The inner loop of `parseFormList`: read the fields of one `<xform>` entry. */
  method ReadXformFields(xform: Element) returns (f: XformFields)
    ensures f == XformFieldsOf(xform.children)
  {
    var cs := xform.children;
    var m := InNamespace(XformsListNamespace);
    f := NoXformFields;
    var j := 0;
    while j < |cs|
      invariant 0 <= j <= |cs|
      invariant f == XformFieldsOf(cs[..j])
    {
      LastFieldTextStep(cs, j, m, "formID");
      LastFieldTextStep(cs, j, m, "name");
      LastFieldTextStep(cs, j, m, "version");
      LastFieldTextStep(cs, j, m, "majorMinorVersion");
      LastFieldTextStep(cs, j, m, "descriptionText");
      LastFieldTextStep(cs, j, m, "downloadUrl");
      LastFieldTextStep(cs, j, m, "manifestUrl");
      LastFieldTextStep(cs, j, m, "hash");
      if cs[j].ElementNode? && IsXformsListNamespaced(cs[j].element) {
        var child := cs[j].element;
        var text := ElementText(child);
        if child.name == "formID" {
          f := f.(formId := NonEmpty(text));
        } else if child.name == "name" {
          f := f.(name := NonEmpty(text));
        } else if child.name == "version" {
          f := f.(version := NonBlank(text));
        } else if child.name == "majorMinorVersion" {
          f := f.(majorMinorVersion := NonEmpty(text));
        } else if child.name == "descriptionText" {
          f := f.(description := NonEmpty(text));
        } else if child.name == "downloadUrl" {
          f := f.(downloadUrl := NonEmpty(text));
        } else if child.name == "manifestUrl" {
          f := f.(manifestUrl := NonEmpty(text));
        } else if child.name == "hash" {
          f := f.(hash := NonEmpty(text));
        }
      }
      j := j + 1;
    }
    assert cs[..j] == cs;
  }

  /** What an item of a parsed OpenRosa form list always satisfies. */
  predicate WellFormedItem(item: FormListItem) {
    && item.formId.Some? && item.formId.value != ""
    && item.downloadUrl.Some? && item.downloadUrl.value != ""
    && item.name != ""
    && (item.version.Some? ==> Trim(item.version.value) != "")
    && (item.hashWithPrefix.Some? ==> item.hashWithPrefix.value != "")
    && (item.manifestUrl.Some? ==> item.manifestUrl.value != "")
  }

  /**
   * The form-list item an `<xform>` entry yields: none when its id, download URL or name is
   * missing or empty; otherwise well formed, with the entry's fields.
   */
  function XformItemOf(e: Element): (r: Option<FormListItem>)
    ensures r.None? <==> var f := XformFieldsOf(e.children); f.formId.None? || f.downloadUrl.None? || f.name.None?
    ensures r.Some? ==> WellFormedItem(r.value)
  {
    var f := XformFieldsOf(e.children);
    if f.formId.None? || f.downloadUrl.None? || f.name.None? then None
    else Some(FormListItem(f.downloadUrl, f.formId, f.version, f.hash, f.name.value, f.manifestUrl))
  }

  /** A child of `<xforms>` the parser interprets: an `xform` element in the form-list namespace. */
  predicate IsXformElement(e: Element) {
    IsXformsListNamespaced(e) && EqualsIgnoreCase(e.name, "xform")
  }

  /** The items the children `cs` of `<xforms>` denote; one incomplete entry fails the whole list. */
  function XformItems(cs: seq<Node>): Result<seq<FormListItem>, Exception> {
    Collect(cs, IsXformElement, XformItemOf, MalformedResponse)
  }

  /** What `parseFormList` returns for a document whose root element is `root`. */
  function FormListSpec(root: Element): Result<seq<FormListItem>, Exception> {
    if root.name != "xforms" || !IsXformsListNamespaced(root) then Failure(MalformedResponse)
    else XformItems(root.children)
  }

  /** `parseFormList` */
  method ParseFormList(root: Element) returns (r: Result<seq<FormListItem>, Exception>)
    ensures r == FormListSpec(root)
  {
    if root.name != "xforms" {
      return Failure(MalformedResponse);
    }
    if !IsXformsListNamespaced(root) {
      return Failure(MalformedResponse);
    }
    var cs := root.children;
    var formList: seq<FormListItem> := [];
    var i := 0;
    PrefixedNil(XformItems(cs));
    while i < |cs|
      invariant 0 <= i <= |cs|
      invariant XformItems(cs) == Prefixed(formList, XformItems(cs[i..]))
    {
      CollectStep(cs, i, IsXformElement, XformItemOf, MalformedResponse);
      if cs[i].ElementNode? && IsXformsListNamespaced(cs[i].element) && EqualsIgnoreCase(cs[i].element.name, "xform") {
        var f := ReadXformFields(cs[i].element);
        if f.formId.None? || f.downloadUrl.None? || f.name.None? {
          return Failure(MalformedResponse);
        }
        var item := FormListItem(f.downloadUrl, f.formId, f.version, f.hash, f.name.value, f.manifestUrl);
        PrefixedPrepend(formList, item, XformItems(cs[i + 1..]));
        formList := formList + [item];
      }
      i := i + 1;
    }
    assert cs[i..] == [];
    assert formList + [] == formList;
    return Success(formList);
  }

  /**
   * A well-rooted form list fails exactly when one of its `xform` entries misses its id,
   * download URL or name; otherwise it holds the item of each entry, in document order.
   */
  lemma {:induction false} FormListEntries(root: Element)
    requires root.name == "xforms" && IsXformsListNamespaced(root)
    ensures var es := ElementsWhere(root.children, IsXformElement);
      && (FormListSpec(root).Success? <==> AllAccepted(es, XformItemOf))
      && (FormListSpec(root).Success? ==>
            |FormListSpec(root).value| == |es| &&
            forall k :: 0 <= k < |es| ==> XformItemOf(es[k]) == Some(FormListSpec(root).value[k]))
  {
    CollectSucceedsIff(root.children, IsXformElement, XformItemOf, MalformedResponse);
    if FormListSpec(root).Success? {
      CollectInOrder(root.children, IsXformElement, XformItemOf, MalformedResponse);
    }
  }

  /** Every item of a parsed OpenRosa form list has a non-empty id, download URL and name, and no blank version. */
  lemma {:induction false} FormListItemsWellFormed(root: Element)
    requires FormListSpec(root).Success?
    ensures forall item :: item in FormListSpec(root).value ==> WellFormedItem(item)
  {
    var cs := root.children;
    CollectInOrder(cs, IsXformElement, XformItemOf, MalformedResponse);
    var es := ElementsWhere(cs, IsXformElement);
    var items := FormListSpec(root).value;
    forall item | item in items
      ensures WellFormedItem(item)
    {
      var k :| 0 <= k < |items| && items[k] == item;
      assert XformItemOf(es[k]) == Some(item);
    }
  }

  // ---------------------------------------------------------------- legacy form list

  /**
   * The item a legacy `form` element yields with the pending id `formId`. Its `url` attribute
   * is dereferenced (and trimmed) before its name is checked, so a missing attribute is a
   * null dereference even when the name is missing too.
   */
  predicate IsLegacyFormElement(e: Element) {
    EqualsIgnoreCase(e.name, "form")
  }

  function LegacyItemOf(form: Element, formId: Option<string>): (r: Result<FormListItem, Exception>)
    ensures r.Failure? <==> AttributeValue(form, "url").None? || NonEmpty(ElementText(form)).None?
    ensures AttributeValue(form, "url").None? ==> r == Failure(RuntimeFailure)
    ensures r.Success? ==>
      && Some(r.value.name) == NonEmpty(ElementText(form)) && r.value.formId == formId
      && r.value.downloadUrl == NonEmpty(Some(Trim(AttributeValue(form, "url").value)))
      && r.value.version.None? && r.value.hashWithPrefix.None? && r.value.manifestUrl.None?
  {
    var formName := NonEmpty(ElementText(form));
    match AttributeValue(form, "url")
    case None => Failure(RuntimeFailure)
    case Some(url) =>
      if formName.None? then Failure(MalformedResponse)
      else Success(FormListItem(NonEmpty(Some(Trim(url))), formId, None, None, formName.value, None))
  }

  /**
   * The items the children `cs` of a legacy form list denote, when the `formID` most recently
   * seen since the last `form` element is `pendingId`. A `formID` element (exact name) sets the
   * pending id, a `form` element (name ignoring case) consumes and clears it.
   */
  function LegacyItems(cs: seq<Node>, pendingId: Option<string>): Result<seq<FormListItem>, Exception>
    decreases |cs|
  {
    if cs == [] then Success([])
    else if cs[0].TextNode? then LegacyItems(cs[1..], pendingId)
    else
      var child := cs[0].element;
      var id := if child.name == "formID" then NonEmpty(ElementText(child)) else pendingId;
      if !IsLegacyFormElement(child) then LegacyItems(cs[1..], id)
      else match LegacyItemOf(child, id)
        case Failure(e) => Failure(e)
        case Success(item) => Prepend(item, LegacyItems(cs[1..], None))
  }

  /** What `parseLegacyFormList` returns: the root element's name and namespace are not checked. */
  function LegacyFormListSpec(root: Element): Result<seq<FormListItem>, Exception> {
    LegacyItems(root.children, None)
  }

  /** `parseLegacyFormList` */
  method ParseLegacyFormList(root: Element) returns (r: Result<seq<FormListItem>, Exception>)
    ensures r == LegacyFormListSpec(root)
  {
    var cs := root.children;
    var formId: Option<string> := None;
    var formList: seq<FormListItem> := [];
    var i := 0;
    PrefixedNil(LegacyItems(cs, None));
    while i < |cs|
      invariant 0 <= i <= |cs|
      invariant LegacyItems(cs, None) == Prefixed(formList, LegacyItems(cs[i..], formId))
    {
      assert cs[i..][1..] == cs[i + 1..];
      if cs[i].ElementNode? {
        var child := cs[i].element;
        if child.name == "formID" {
          formId := NonEmpty(ElementText(child));
        }
        if EqualsIgnoreCase(child.name, "form") {
          var formName := NonEmpty(ElementText(child));
          var url := AttributeValue(child, "url");
          if url.None? {
            return Failure(RuntimeFailure);
          }
          var downloadUrl := NonEmpty(Some(Trim(url.value)));
          if formName.None? {
            return Failure(MalformedResponse);
          }
          var item := FormListItem(downloadUrl, formId, None, None, formName.value, None);
          PrefixedPrepend(formList, item, LegacyItems(cs[i + 1..], None));
          formList := formList + [item];
          formId := None;
        }
      }
      i := i + 1;
    }
    assert cs[i..] == [];
    assert formList + [] == formList;
    return Success(formList);
  }

  /** A legacy list has one item per `form` element, named by that element's text. */
  lemma {:induction false} LegacyItemsPerFormElement(cs: seq<Node>, pendingId: Option<string>)
    requires LegacyItems(cs, pendingId).Success?
    ensures var es := ElementsWhere(cs, IsLegacyFormElement);
      && |LegacyItems(cs, pendingId).value| == |es|
      && forall k :: 0 <= k < |es| ==> Some(LegacyItems(cs, pendingId).value[k].name) == NonEmpty(ElementText(es[k]))
  {
    if cs != [] {
      var es := ElementsWhere(cs, IsLegacyFormElement);
      var rest := ElementsWhere(cs[1..], IsLegacyFormElement);
      if cs[0].TextNode? || !IsLegacyFormElement(cs[0].element) {
        var id := if cs[0].ElementNode? && cs[0].element.name == "formID" then NonEmpty(ElementText(cs[0].element)) else pendingId;
        assert LegacyItems(cs, pendingId) == LegacyItems(cs[1..], id);
        LegacyItemsPerFormElement(cs[1..], id);
        assert es == rest;
      } else {
        var child := cs[0].element;
        var id := if child.name == "formID" then NonEmpty(ElementText(child)) else pendingId;
        assert LegacyItems(cs, pendingId) == Prepend(LegacyItemOf(child, id).value, LegacyItems(cs[1..], None));
        LegacyItemsPerFormElement(cs[1..], None);
        LegacyFormStep(cs, pendingId);
      }
    }
  }

  lemma {:induction false} LegacyFormStep(cs: seq<Node>, pendingId: Option<string>)
    requires cs != [] && cs[0].ElementNode? && IsLegacyFormElement(cs[0].element)
    requires LegacyItems(cs, pendingId).Success?
    requires LegacyItems(cs[1..], None).Success? ==>
      var es := ElementsWhere(cs[1..], IsLegacyFormElement);
      && |LegacyItems(cs[1..], None).value| == |es|
      && forall k :: 0 <= k < |es| ==> Some(LegacyItems(cs[1..], None).value[k].name) == NonEmpty(ElementText(es[k]))
    ensures var es := ElementsWhere(cs, IsLegacyFormElement);
      && |LegacyItems(cs, pendingId).value| == |es|
      && forall k :: 0 <= k < |es| ==> Some(LegacyItems(cs, pendingId).value[k].name) == NonEmpty(ElementText(es[k]))
  {
    var child := cs[0].element;
    var es := ElementsWhere(cs, IsLegacyFormElement);
    var rest := ElementsWhere(cs[1..], IsLegacyFormElement);
    assert es == [child] + rest;
    var id := if child.name == "formID" then NonEmpty(ElementText(child)) else pendingId;
    var item := LegacyItemOf(child, id).value;
    var tail := LegacyItems(cs[1..], None).value;
    assert LegacyItems(cs, pendingId).value == [item] + tail;
    var items := LegacyItems(cs, pendingId).value;
    forall k | 0 <= k < |es|
      ensures Some(items[k].name) == NonEmpty(ElementText(es[k]))
    {
      if k > 0 {
        assert es[k] == rest[k - 1] && items[k] == tail[k - 1];
      }
    }
  }

  /** A form id never carries over past a `form` element: with no `formID` element, no item has an id. */
  lemma {:induction false} LegacyIdsOnlyFromFormIdElements(cs: seq<Node>)
    requires forall i :: 0 <= i < |cs| && cs[i].ElementNode? ==> cs[i].element.name != "formID"
    requires LegacyItems(cs, None).Success?
    ensures forall item :: item in LegacyItems(cs, None).value ==> item.formId.None?
  {
    if cs != [] {
      LegacyIdsOnlyFromFormIdElements(cs[1..]);
    }
  }

  /** A `formID` element sets the id the next `form` element takes, replacing any earlier one. */
  lemma {:induction false} FormIdElementSetsPendingId(e: Element, rest: seq<Node>, pendingId: Option<string>)
    requires e.name == "formID"
    ensures LegacyItems([ElementNode(e)] + rest, pendingId) == LegacyItems(rest, NonEmpty(ElementText(e)))
  {
    assert ([ElementNode(e)] + rest)[1..] == rest;
    assert !EqualsIgnoreCase("formID", "form") by {
      assert |Lower("formID")| != |Lower("form")|;
    }
  }

  /** A `form` element takes the pending id and clears it for the elements after it. */
  lemma {:induction false} FormElementTakesPendingId(e: Element, rest: seq<Node>, pendingId: Option<string>)
    requires IsLegacyFormElement(e)
    requires LegacyItems([ElementNode(e)] + rest, pendingId).Success?
    ensures var items := LegacyItems([ElementNode(e)] + rest, pendingId).value;
      && items != [] && items[0].formId == pendingId
      && (LegacyItems(rest, None).Success? && items[1..] == LegacyItems(rest, None).value)
  {
    assert ([ElementNode(e)] + rest)[1..] == rest;
    assert |Lower(e.name)| == |Lower("form")|;
  }

  // ---------------------------------------------------------------- manifest

  function ManifestField(cs: seq<Node>, tag: string): Option<string> {
    LastFieldText(cs, InNamespace(XformsManifestNamespace), tag)
  }

  /** The media file a `<mediaFile>` entry of a manifest with children `cs` denotes. */
  function ManifestMediaFileOf(cs: seq<Node>): MediaFile {
    MediaFile(NonEmpty(ManifestField(cs, "filename")), NonEmpty(ManifestField(cs, "hash")),
              NonEmpty(ManifestField(cs, "downloadUrl")))
  }

  /** The inner loop of `parseManifest`: read the fields of one `<mediaFile>` entry. */
  method ReadManifestMediaFile(entry: Element) returns (f: MediaFile)
    ensures f == ManifestMediaFileOf(entry.children)
  {
    var cs := entry.children;
    var m := InNamespace(XformsManifestNamespace);
    f := MediaFile(None, None, None);
    var j := 0;
    while j < |cs|
      invariant 0 <= j <= |cs|
      invariant f == ManifestMediaFileOf(cs[..j])
    {
      LastFieldTextStep(cs, j, m, "filename");
      LastFieldTextStep(cs, j, m, "hash");
      LastFieldTextStep(cs, j, m, "downloadUrl");
      if cs[j].ElementNode? && IsXformsManifestNamespaced(cs[j].element) {
        var child := cs[j].element;
        var text := ElementText(child);
        if child.name == "filename" {
          f := f.(filename := NonEmpty(text));
        } else if child.name == "hash" {
          f := f.(hash := NonEmpty(text));
        } else if child.name == "downloadUrl" {
          f := f.(downloadUrl := NonEmpty(text));
        }
      }
      j := j + 1;
    }
    assert cs[..j] == cs;
  }

  predicate IsComplete(f: MediaFile) {
    f.filename.Some? && f.hash.Some? && f.downloadUrl.Some?
  }

  /**
   * The media file a `<mediaFile>` entry of a manifest yields: none when its name, hash or
   * download URL is missing or empty.
   */
  function ManifestFileOf(e: Element): (r: Option<MediaFile>)
    ensures r.None? <==> !IsComplete(ManifestMediaFileOf(e.children))
    ensures r.Some? ==>
      (r.value == ManifestMediaFileOf(e.children) &&
       r.value.filename.value != "" && r.value.hash.value != "" && r.value.downloadUrl.value != "")
  {
    var f := ManifestMediaFileOf(e.children);
    if IsComplete(f) then Some(f) else None
  }

  /** A child of `<manifest>` the parser interprets: a `mediaFile` element in the manifest namespace. */
  predicate IsManifestElement(e: Element) {
    IsXformsManifestNamespaced(e) && EqualsIgnoreCase(e.name, "mediaFile")
  }

  /** The media files the children `cs` of `<manifest>` denote; one incomplete entry fails the manifest. */
  function ManifestEntries(cs: seq<Node>): Result<seq<MediaFile>, Exception> {
    Collect(cs, IsManifestElement, ManifestFileOf, MalformedResponse)
  }

  /** What `parseManifest` returns for a document with root `root` whose hash is `hash`. */
  function ManifestSpec(root: Element, hash: Option<string>): Result<ManifestFile, Exception> {
    if root.name != "manifest" || !IsXformsManifestNamespaced(root) then Failure(MalformedResponse)
    else match ManifestEntries(root.children)
      case Failure(e) => Failure(e)
      case Success(files) => Success(ManifestFile(hash, files))
  }

  /** `parseManifest` */
  method ParseManifest(root: Element, hash: Option<string>) returns (r: Result<ManifestFile, Exception>)
    ensures r == ManifestSpec(root, hash)
  {
    if root.name != "manifest" {
      return Failure(MalformedResponse);
    }
    if !IsXformsManifestNamespaced(root) {
      return Failure(MalformedResponse);
    }
    var cs := root.children;
    var files: seq<MediaFile> := [];
    var i := 0;
    PrefixedNil(ManifestEntries(cs));
    while i < |cs|
      invariant 0 <= i <= |cs|
      invariant ManifestEntries(cs) == Prefixed(files, ManifestEntries(cs[i..]))
    {
      CollectStep(cs, i, IsManifestElement, ManifestFileOf, MalformedResponse);
      if cs[i].ElementNode? && IsXformsManifestNamespaced(cs[i].element) && EqualsIgnoreCase(cs[i].element.name, "mediaFile") {
        var f := ReadManifestMediaFile(cs[i].element);
        if f.filename.None? || f.downloadUrl.None? || f.hash.None? {
          return Failure(MalformedResponse);
        }
        PrefixedPrepend(files, f, ManifestEntries(cs[i + 1..]));
        files := files + [f];
      }
      i := i + 1;
    }
    assert cs[i..] == [];
    assert files + [] == files;
    return Success(ManifestFile(hash, files));
  }

  /**
   * A well-rooted manifest fails exactly when one of its `mediaFile` entries misses its name,
   * hash or URL; otherwise it lists each entry's file, in document order, with the document's hash.
   */
  lemma {:induction false} ManifestEntriesListed(root: Element, hash: Option<string>)
    requires root.name == "manifest" && IsXformsManifestNamespaced(root)
    ensures var es := ElementsWhere(root.children, IsManifestElement);
      && (ManifestSpec(root, hash).Success? <==> AllAccepted(es, ManifestFileOf))
      && (ManifestSpec(root, hash).Success? ==>
            var m := ManifestSpec(root, hash).value;
            m.hash == hash && |m.mediaFiles| == |es| &&
            forall k :: 0 <= k < |es| ==> ManifestFileOf(es[k]) == Some(m.mediaFiles[k]))
  {
    CollectSucceedsIff(root.children, IsManifestElement, ManifestFileOf, MalformedResponse);
    if ManifestSpec(root, hash).Success? {
      CollectInOrder(root.children, IsManifestElement, ManifestFileOf, MalformedResponse);
    }
  }

  // ---------------------------------------------------------------- submission id list

  /**
   * The ids listed from position `j` of the children of `<idList>`: every second child,
   * each of which must be an element whose first child is text.
   */
  function IdsFrom(cs: seq<Node>, j: nat): Result<seq<string>, Exception>
    decreases |cs| - j
  {
    if j >= |cs| then Success([])
    else if cs[j].TextNode? || cs[j].element.children == [] || cs[j].element.children[0].ElementNode? then Failure(RuntimeFailure)
    else Prepend(cs[j].element.children[0].text, IdsFrom(cs, j + 2))
  }

  /**
   * What `parseSubmissionIds` returns: the first child of the root must be an element; when
   * it is not named `idList` the list is empty.
   */
  function SubmissionIdsSpec(root: Element): Result<seq<string>, Exception> {
    if root.children == [] || root.children[0].TextNode? then Failure(RuntimeFailure)
    else if root.children[0].element.name != "idList" then Success([])
    else IdsFrom(root.children[0].element.children, 0)
  }

  /** `parseSubmissionIds` */
  method ParseSubmissionIds(root: Element) returns (r: Result<seq<string>, Exception>)
    ensures r == SubmissionIdsSpec(root)
  {
    if root.children == [] || root.children[0].TextNode? {
      return Failure(RuntimeFailure);
    }
    var idList := root.children[0].element;
    var ids: seq<string> := [];
    if idList.name == "idList" {
      var cs := idList.children;
      var j := 0;
      PrefixedNil(IdsFrom(cs, 0));
      while j < |cs|
        invariant 0 <= j
        invariant IdsFrom(cs, 0) == Prefixed(ids, IdsFrom(cs, j))
      {
        if cs[j].TextNode? || cs[j].element.children == [] || cs[j].element.children[0].ElementNode? {
          return Failure(RuntimeFailure);
        }
        PrefixedPrepend(ids, cs[j].element.children[0].text, IdsFrom(cs, j + 2));
        ids := ids + [cs[j].element.children[0].text];
        j := j + 2;
      }
      assert IdsFrom(cs, j) == Success([]);
      assert ids + [] == ids;
    }
    return Success(ids);
  }

  /** The id list has one entry per even position: the first child text of the elements at 0, 2, 4, …. */
  lemma {:induction false} IdsAtEvenPositions(cs: seq<Node>, j: nat)
    requires j <= |cs|
    requires IdsFrom(cs, j).Success?
    ensures |IdsFrom(cs, j).value| == (|cs| - j + 1) / 2
    ensures forall k :: 0 <= k < |IdsFrom(cs, j).value| ==>
      j + 2 * k < |cs| && cs[j + 2 * k].ElementNode? && cs[j + 2 * k].element.children != [] &&
      cs[j + 2 * k].element.children[0] == TextNode(IdsFrom(cs, j).value[k])
    decreases |cs| - j
  {
    if j < |cs| {
      var ids := IdsFrom(cs, j).value;
      var tail := IdsFrom(cs, j + 2);
      if j + 2 <= |cs| {
        IdsAtEvenPositions(cs, j + 2);
      } else {
        assert tail == Success([]);
      }
      assert ids == [cs[j].element.children[0].text] + tail.value;
      forall k | 1 <= k < |ids|
        ensures j + 2 * k < |cs| && cs[j + 2 * k].ElementNode? && cs[j + 2 * k].element.children != [] &&
                cs[j + 2 * k].element.children[0] == TextNode(ids[k])
      {
        assert ids[k] == tail.value[k - 1];
        assert j + 2 * k == (j + 2) + 2 * (k - 1);
      }
    }
  }

  // ---------------------------------------------------------------- submission download

  /** The attachment a `<mediaFile>` entry of a submission denotes: fields matched ignoring case, in any namespace, not normalised. */
  function AttachmentOf(cs: seq<Node>): MediaFile {
    var m := AnyNamespaceIgnoringCase;
    MediaFile(LastFieldText(cs, m, "filename"), LastFieldText(cs, m, "hash"), LastFieldText(cs, m, "downloadUrl"))
  }

  /**
   * The inner loop over a submission's `<mediaFile>` entry. A child whose name matches more
   * than one tag cannot occur (the three tags differ ignoring case), so the `else if` chain
   * is the same as setting each field independently.
   */
  method ReadAttachment(entry: Element) returns (f: MediaFile)
    ensures f == AttachmentOf(entry.children)
  {
    var cs := entry.children;
    var m := AnyNamespaceIgnoringCase;
    f := MediaFile(None, None, None);
    var j := 0;
    while j < |cs|
      invariant 0 <= j <= |cs|
      invariant f == AttachmentOf(cs[..j])
    {
      LastFieldTextStep(cs, j, m, "filename");
      LastFieldTextStep(cs, j, m, "hash");
      LastFieldTextStep(cs, j, m, "downloadUrl");
      if cs[j].ElementNode? {
        var child := cs[j].element;
        var text := ElementText(child);
        if EqualsIgnoreCase(child.name, "filename") {
          DistinctTags(child.name);
          f := f.(filename := text);
        } else if EqualsIgnoreCase(child.name, "hash") {
          DistinctTags(child.name);
          f := f.(hash := text);
        } else if EqualsIgnoreCase(child.name, "downloadUrl") {
          f := f.(downloadUrl := text);
        }
      }
      j := j + 1;
    }
    assert cs[..j] == cs;
  }

  lemma {:induction false} DistinctTags(name: string)
    ensures EqualsIgnoreCase(name, "filename") ==> !EqualsIgnoreCase(name, "hash") && !EqualsIgnoreCase(name, "downloadUrl")
    ensures EqualsIgnoreCase(name, "hash") ==> !EqualsIgnoreCase(name, "downloadUrl")
  {
    if EqualsIgnoreCase(name, "filename") {
      assert |Lower(name)| == 8;
    }
    if EqualsIgnoreCase(name, "hash") {
      assert |Lower(name)| == 4;
    }
  }

  /** The locals of `parseSubmissionResponse` as its loop over the `<submission>` children goes. */
  datatype SubmissionScan = SubmissionScan(body: Option<Element>, instanceId: Option<string>, attachments: seq<MediaFile>)

  const NothingScanned := SubmissionScan(None, None, [])

  predicate InSubmissionsNamespace(n: Node) {
    n.ElementNode? && EqualsIgnoreCase(n.element.namespace, SubmissionsNamespace)
  }

  predicate IsDataEntry(n: Node) {
    InSubmissionsNamespace(n) && EqualsIgnoreCase(n.element.name, "data")
  }

  predicate IsAttachmentEntry(n: Node) {
    InSubmissionsNamespace(n) && !EqualsIgnoreCase(n.element.name, "data") && EqualsIgnoreCase(n.element.name, "mediaFile")
  }

  /**
   * One child of `<submission>`. A `data` entry replaces the body with its first element child,
   * keeping the earlier body when it has none, and fails when there is still no body or the
   * body has no `instanceID` attribute; a `mediaFile` entry appends an attachment.
   */
  function ScanStep(st: SubmissionScan, n: Node): Result<SubmissionScan, Exception> {
    if IsDataEntry(n) then
      var body := match FirstElement(n.element.children) { case Some(b) => Some(b) case None => st.body };
      if body.None? then Failure(ParsingException)
      else
        var id := AttributeValue(body.value, "instanceID");
        if id.None? then Failure(ParsingException) else Success(SubmissionScan(body, id, st.attachments))
    else if IsAttachmentEntry(n) then Success(st.(attachments := st.attachments + [AttachmentOf(n.element.children)]))
    else Success(st)
  }

  function Scan(cs: seq<Node>, st: SubmissionScan): Result<SubmissionScan, Exception>
    decreases |cs|
  {
    if cs == [] then Success(st)
    else match ScanStep(st, cs[0])
      case Failure(e) => Failure(e)
      case Success(next) => Scan(cs[1..], next)
  }

  /** The elements among `cs` named `name` in any namespace (kXML's `indexOf(null, name, …)`). */
  function ElementsNamed(cs: seq<Node>, name: string): (r: seq<Node>)
    ensures forall n :: n in r ==> n.ElementNode? && n.element.name == name
  {
    Filter(cs, (n: Node) => n.ElementNode? && n.element.name == name)
  }

  /**
   * The instance name of a submission body. Its last child must exist; when it is an element
   * (the meta block) it must hold exactly one `instanceName` element, whose first child, if
   * text, is the name.
   */
  function InstanceNameOf(body: Element): Result<Option<string>, Exception> {
    if body.children == [] then Failure(RuntimeFailure)
    else match body.children[|body.children| - 1]
      case TextNode(_) => Success(None)
      case ElementNode(meta) =>
        var named := ElementsNamed(meta.children, "instanceName");
        if |named| != 1 then Failure(RuntimeFailure)
        else
          var cs := named[0].element.children;
          if cs != [] && cs[0].TextNode? then Success(Some(cs[0].text)) else Success(None)
  }

  /** What `parseSubmissionResponse` returns, given how the KXml serializer writes an element. */
  function SubmissionResponseSpec(root: Element, serialize: Element -> string): Result<SubmissionManifest, Exception> {
    if root.name != "submission" || !EqualsIgnoreCase(root.namespace, SubmissionsNamespace) then Failure(ParsingException)
    else match Scan(root.children, NothingScanned)
      case Failure(e) => Failure(e)
      case Success(st) =>
        if st.body.None? || st.instanceId.None? then Failure(ParsingException)
        else match InstanceNameOf(st.body.value)
          case Failure(e) => Failure(e)
          case Success(name) => Success(SubmissionManifest(st.instanceId.value, serialize(st.body.value), st.attachments, name))
  }

  /** The inner loop over a `data` entry: its first element child. */
  method FindFirstElement(cs: seq<Node>) returns (r: Option<Element>)
    ensures r == FirstElement(cs)
  {
    var j := 0;
    while j < |cs|
      invariant 0 <= j <= |cs|
      invariant forall k :: 0 <= k < j ==> cs[k].TextNode?
    {
      if cs[j].ElementNode? {
        return Some(cs[j].element);
      }
      j := j + 1;
    }
    return None;
  }

  /** `parseSubmissionResponse`; the serializer is a parameter. */
  method ParseSubmissionResponse(root: Element, serialize: Element -> string) returns (r: Result<SubmissionManifest, Exception>)
    ensures r == SubmissionResponseSpec(root, serialize)
  {
    if root.name != "submission" {
      return Failure(ParsingException);
    }
    if !EqualsIgnoreCase(root.namespace, SubmissionsNamespace) {
      return Failure(ParsingException);
    }
    var cs := root.children;
    var body: Option<Element> := None;
    var instanceId: Option<string> := None;
    var attachments: seq<MediaFile> := [];
    var i := 0;
    while i < |cs|
      invariant 0 <= i <= |cs|
      invariant Scan(cs, NothingScanned) == Scan(cs[i..], SubmissionScan(body, instanceId, attachments))
    {
      assert cs[i..][1..] == cs[i + 1..];
      if cs[i].ElementNode? && EqualsIgnoreCase(cs[i].element.namespace, SubmissionsNamespace) {
        var sub := cs[i].element;
        if EqualsIgnoreCase(sub.name, "data") {
          var first := FindFirstElement(sub.children);
          if first.Some? {
            body := first;
          }
          if body.None? {
            return Failure(ParsingException);
          }
          instanceId := AttributeValue(body.value, "instanceID");
          if instanceId.None? {
            return Failure(ParsingException);
          }
        } else if EqualsIgnoreCase(sub.name, "mediaFile") {
          var f := ReadAttachment(sub);
          attachments := attachments + [f];
        }
      }
      i := i + 1;
    }
    assert cs[i..] == [];
    if body.None? || instanceId.None? {
      return Failure(ParsingException);
    }
    var name := InstanceNameOf(body.value);
    if name.Failure? {
      return Failure(name.error);
    }
    return Success(SubmissionManifest(instanceId.value, serialize(body.value), attachments, name.value));
  }

  /** The attachments of the `mediaFile` entries among `cs`, in document order. */
  function AttachmentsIn(cs: seq<Node>): seq<MediaFile>
    decreases |cs|
  {
    if cs == [] then []
    else (if IsAttachmentEntry(cs[0]) then [AttachmentOf(cs[0].element.children)] else []) + AttachmentsIn(cs[1..])
  }

  /** A scan state whose instance id is the body's `instanceID` attribute. */
  predicate Consistent(st: SubmissionScan) {
    (st.body.None? ==> st.instanceId.None?) &&
    (st.body.Some? ==> st.instanceId.Some? && st.instanceId == AttributeValue(st.body.value, "instanceID"))
  }

  /** A successful scan keeps the attachments of all `mediaFile` entries, in document order. */
  lemma {:induction false} ScanKeepsAttachments(cs: seq<Node>, st: SubmissionScan)
    requires Scan(cs, st).Success?
    ensures Scan(cs, st).value.attachments == st.attachments + AttachmentsIn(cs)
    decreases |cs|
  {
    if cs != [] {
      var next := ScanStep(st, cs[0]).value;
      ScanKeepsAttachments(cs[1..], next);
      if IsAttachmentEntry(cs[0]) {
        assert next.attachments == st.attachments + [AttachmentOf(cs[0].element.children)];
      } else {
        assert next.attachments == st.attachments;
      }
    }
  }

  /** A successful scan ends with the `instanceID` of the body it ends with. */
  lemma {:induction false} ScanKeepsConsistent(cs: seq<Node>, st: SubmissionScan)
    requires Consistent(st)
    requires Scan(cs, st).Success?
    ensures Consistent(Scan(cs, st).value)
    decreases |cs|
  {
    if cs != [] {
      ScanKeepsConsistent(cs[1..], ScanStep(st, cs[0]).value);
    }
  }

  /** A successful scan ends with a body exactly when it started with one or met a `data` entry. */
  lemma {:induction false} ScanFindsBody(cs: seq<Node>, st: SubmissionScan)
    requires Scan(cs, st).Success?
    ensures Scan(cs, st).value.body.Some? <==> st.body.Some? || exists i :: 0 <= i < |cs| && IsDataEntry(cs[i])
    decreases |cs|
  {
    if cs != [] {
      var next := ScanStep(st, cs[0]).value;
      ScanFindsBody(cs[1..], next);
      assert st.body.Some? ==> next.body.Some?;
      assert IsDataEntry(cs[0]) ==> next.body.Some?;
      assert next.body.Some? ==> st.body.Some? || IsDataEntry(cs[0]);
      if exists i :: 0 <= i < |cs[1..]| && IsDataEntry(cs[1..][i]) {
        var i :| 0 <= i < |cs[1..]| && IsDataEntry(cs[1..][i]);
        assert IsDataEntry(cs[i + 1]);
      }
      if exists i :: 0 <= i < |cs| && IsDataEntry(cs[i]) {
        var i :| 0 <= i < |cs| && IsDataEntry(cs[i]);
        if i > 0 {
          assert IsDataEntry(cs[1..][i - 1]);
        }
      }
    }
  }

  /**
   * A parsed submission download has the `instanceID` of the body it serialises, the
   * attachments of all `mediaFile` entries in order, and requires a `data` entry.
   */
  lemma {:induction false} SubmissionResponseFacts(root: Element, serialize: Element -> string)
    requires SubmissionResponseSpec(root, serialize).Success?
    ensures var m := SubmissionResponseSpec(root, serialize).value;
      && root.name == "submission"
      && (exists i :: 0 <= i < |root.children| && IsDataEntry(root.children[i]))
      && m.attachmentList == AttachmentsIn(root.children)
      && exists body :: AttributeValue(body, "instanceID") == Some(m.instanceId) && m.submissionXml == serialize(body)
  {
    ScanKeepsAttachments(root.children, NothingScanned);
    ScanKeepsConsistent(root.children, NothingScanned);
    ScanFindsBody(root.children, NothingScanned);
    var st := Scan(root.children, NothingScanned).value;
    assert AttributeValue(st.body.value, "instanceID") == st.instanceId;
  }
}
