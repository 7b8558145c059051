/**
 * `InMemFormsRepository`: the test double of `FormsRepository`, a table of forms kept in a
 * list. The queries are stream filters over the list and are modelled as functions of its
 * contents; `save`, `delete`, `softDelete`, `restore` and `deleteFormsByMd5Hash` change the
 * list in place and are methods of the class.
 */
module FormsRepository {
  import opened Wrappers
  import opened Seqs

  /** The fields of `Form` that the repository and the form fetcher look at; only `jrVersion` may be null. */
  datatype Form = Form(
    id: int,
    jrFormId: string,
    jrVersion: Option<string>,
    md5Hash: string,
    formFilePath: string,
    deleted: bool)

  /** `f.getJrFormId().equals(jrFormId) && !f.isDeleted()`; a null `jrFormId` matches no form. */
  predicate IsLiveWithFormId(f: Form, jrFormId: Option<string>) {
    jrFormId == Some(f.jrFormId) && !f.deleted
  }

  /** The forms `getByJrFormIdNotDeleted` keeps, as a filter. */
  function LiveWithFormId(jrFormId: Option<string>): Form -> bool {
    f => IsLiveWithFormId(f, jrFormId)
  }

  /** `getByJrFormIdNotDeleted`: exactly the forms with that form id that are not deleted. */
  function GetByJrFormIdNotDeleted(forms: seq<Form>, jrFormId: Option<string>): (r: seq<Form>)
    ensures forall f :: f in r <==> f in forms && IsLiveWithFormId(f, jrFormId)
    ensures r == [] <==> forall i :: 0 <= i < |forms| ==> !IsLiveWithFormId(forms[i], jrFormId)
  {
    var r := Filter(forms, LiveWithFormId(jrFormId));
    assert r == [] <==> forall i :: 0 <= i < |forms| ==> !IsLiveWithFormId(forms[i], jrFormId) by {
      if r != [] {
        assert r[0] in r;
      }
      if exists i :: 0 <= i < |forms| && IsLiveWithFormId(forms[i], jrFormId) {
        var i :| 0 <= i < |forms| && IsLiveWithFormId(forms[i], jrFormId);
        assert forms[i] in r;
      }
    }
    r
  }

  /** The query keeps stored order: the matches of a concatenation are the matches of each part. */
  lemma {:induction false} GetByJrFormIdNotDeletedInOrder(a: seq<Form>, b: seq<Form>, jrFormId: Option<string>)
    ensures GetByJrFormIdNotDeleted(a + b, jrFormId) == GetByJrFormIdNotDeleted(a, jrFormId) + GetByJrFormIdNotDeleted(b, jrFormId)
  {
    FilterConcat(a, b, LiveWithFormId(jrFormId));
  }

  /** `get(id)`: the first form with that id, or nothing. */
  function Get(forms: seq<Form>, id: int): (r: Option<Form>)
    ensures r.None? <==> forall i :: 0 <= i < |forms| ==> forms[i].id != id
    ensures r.Some? ==> exists i :: 0 <= i < |forms| && forms[i] == r.value && r.value.id == id
                                    && forall j :: 0 <= j < i ==> forms[j].id != id
  {
    FirstMatch(forms, WithId(id))
  }

  /**
   * `get(jrFormId, jrVersion)`: the first form with that form id whose version equals
   * `jrVersion`, compared null-safely, so a null version matches only a form without one.
   */
  function GetByFormIdAndVersion(forms: seq<Form>, jrFormId: string, jrVersion: Option<string>): (r: Option<Form>)
    ensures r.None? <==> forall i :: 0 <= i < |forms| ==> !(forms[i].jrFormId == jrFormId && forms[i].jrVersion == jrVersion)
    ensures r.Some? ==> r.value in forms && r.value.jrFormId == jrFormId && r.value.jrVersion == jrVersion
    ensures r.Some? ==> exists i :: 0 <= i < |forms| && forms[i] == r.value
                                    && forall j :: 0 <= j < i ==> !(forms[j].jrFormId == jrFormId && forms[j].jrVersion == jrVersion)
  {
    FirstMatch(forms, (f: Form) => f.jrFormId == jrFormId && f.jrVersion == jrVersion)
  }

  /** `getByMd5Hash`: the first form with that hash, or nothing; a null hash matches no form. */
  function GetByMd5Hash(forms: seq<Form>, hash: Option<string>): (r: Option<Form>)
    ensures r.None? <==> forall i :: 0 <= i < |forms| ==> hash != Some(forms[i].md5Hash)
    ensures r.Some? ==> exists i :: 0 <= i < |forms| && forms[i] == r.value && hash == Some(r.value.md5Hash)
                                    && forall j :: 0 <= j < i ==> hash != Some(forms[j].md5Hash)
  {
    FirstMatch(forms, (f: Form) => hash == Some(f.md5Hash))
  }

  /** `getByPath`: the first form stored at that path, or nothing. */
  function GetByPath(forms: seq<Form>, path: string): (r: Option<Form>)
    ensures r.None? <==> forall i :: 0 <= i < |forms| ==> forms[i].formFilePath != path
    ensures r.Some? ==> exists i :: 0 <= i < |forms| && forms[i] == r.value && r.value.formFilePath == path
                                    && forall j :: 0 <= j < i ==> forms[j].formFilePath != path
  {
    FirstMatch(forms, (f: Form) => f.formFilePath == path)
  }

  /** The forms with that id, as a filter. */
  function WithId(id: int): Form -> bool {
    (f: Form) => f.id == id
  }

  /** The forms with any other id, as a filter. */
  function WithoutId(id: int): Form -> bool {
    (f: Form) => f.id != id
  }

  /**
   * The list after `softDelete` (`deleted` true) or `restore` (`deleted` false): the first
   * form with that id is taken out and a copy with the new flag is added at the end; an
   * unknown id leaves the list as it was.
   */
  function Marked(forms: seq<Form>, id: int, deleted: bool): (r: seq<Form>)
    ensures |r| == |forms|
    ensures Get(forms, id).None? ==> r == forms
    ensures Get(forms, id).Some? ==> r[|r| - 1] == Get(forms, id).value.(deleted := deleted)
    ensures Filter(r, WithoutId(id)) == Filter(forms, WithoutId(id))
  {
    match FirstIndex(forms, WithId(id))
    case None => forms
    case Some(i) =>
      FilterMoveDropped(forms, i, forms[i].(deleted := deleted), WithoutId(id));
      forms[..i] + forms[i + 1..] + [forms[i].(deleted := deleted)]
  }

  /** `softDelete` and `restore` only change the flag of one form: the list is a permutation otherwise. */
  lemma {:induction false} MarkedPermutes(forms: seq<Form>, id: int, deleted: bool)
    requires Get(forms, id).Some?
    ensures var g := Get(forms, id).value;
      multiset(Marked(forms, id, deleted)) == multiset(forms) - multiset{g} + multiset{g.(deleted := deleted)}
  {
    var i := FirstIndex(forms, WithId(id)).value;
    assert forms == forms[..i] + [forms[i]] + forms[i + 1..];
    assert Marked(forms, id, deleted) == forms[..i] + forms[i + 1..] + [forms[i].(deleted := deleted)];
  }

  /** Every form with `id`, if any, is that one: ids are the table's primary key. */
  predicate IdIsUnique(forms: seq<Form>, id: int) {
    forall i, j :: 0 <= i < |forms| && 0 <= j < |forms| && forms[i].id == id && forms[j].id == id ==> i == j
  }

  /**
   * With ids unique, the form that `softDelete` or `restore` moves to the end is then the
   * only one with its id.
   */
  lemma {:induction false} MarkedMovesToEnd(forms: seq<Form>, id: int, deleted: bool)
    requires IdIsUnique(forms, id) && Get(forms, id).Some?
    ensures var s := Marked(forms, id, deleted);
      && FirstIndex(s, WithId(id)) == Some(|s| - 1)
      && IdIsUnique(s, id)
  {
    var i := FirstIndex(forms, WithId(id)).value;
    var s := Marked(forms, id, deleted);
    assert s == forms[..i] + forms[i + 1..] + [forms[i].(deleted := deleted)];
    forall k | 0 <= k < |s| - 1
      ensures !WithId(id)(s[k])
    {
      if k < i {
        assert s[k] == forms[k];
      } else {
        assert s[k] == forms[k + 1];
      }
    }
    FirstIndexIs(s, WithId(id), |s| - 1);
  }

  /**
   * `restore` after `softDelete` gives back the form, no longer deleted, at the end of the
   * list, and leaves the other forms as they were.
   */
  lemma {:induction false} RestoreAfterSoftDelete(forms: seq<Form>, id: int)
    requires IdIsUnique(forms, id)
    ensures var r := Marked(Marked(forms, id, true), id, false);
      && |r| == |forms|
      && (Get(forms, id).None? ==> r == forms)
      && (Get(forms, id).Some? ==> Get(r, id) == Some(Get(forms, id).value.(deleted := false)))
      && Filter(r, WithoutId(id)) == Filter(forms, WithoutId(id))
  {
    if Get(forms, id).Some? {
      var s := Marked(forms, id, true);
      MarkedMovesToEnd(forms, id, true);
      var r := Marked(s, id, false);
      MarkedMovesToEnd(s, id, false);
      assert r[|r| - 1] == s[|s| - 1].(deleted := false);
    }
  }

  /** The in-memory table; `forms` is the `ArrayList` that its methods change in place. */
  class InMemFormsRepository {
    var forms: seq<Form>

    constructor()
      ensures forms == []
    {
      forms := [];
    }

    /** `save`: the form is appended and every other entry stays where it was. */
    method Save(form: Form)
      modifies this
      ensures forms == old(forms) + [form]
    {
      forms := forms + [form];
    }

    /** `getAll`: a copy of the list, which the caller can change without touching the table. */
    method GetAll() returns (all: seq<Form>)
      ensures all == forms
    {
      all := forms;
    }

    /** `delete`: every form with that id is removed; the others keep their relative order. */
    method Delete(id: int)
      modifies this
      ensures forms == Filter(old(forms), WithoutId(id))
      ensures forall f :: f in forms <==> f in old(forms) && f.id != id
    {
      forms := Filter(forms, WithoutId(id));
    }

    /** `deleteFormsByMd5Hash`: every form with that hash is removed; the others keep their order. */
    method DeleteFormsByMd5Hash(md5Hash: string)
      modifies this
      ensures forms == Filter(old(forms), (f: Form) => f.md5Hash != md5Hash)
      ensures forall f :: f in forms <==> f in old(forms) && f.md5Hash != md5Hash
    {
      forms := Filter(forms, (f: Form) => f.md5Hash != md5Hash);
    }

    /** `softDelete`: the form with that id is replaced by a deleted copy at the end of the list. */
    method SoftDelete(id: int)
      modifies this
      ensures forms == Marked(old(forms), id, true)
      ensures |forms| == |old(forms)|
    {
      var i := FirstIndex(forms, WithId(id));
      if i.Some? {
        var form := forms[i.value];
        forms := forms[..i.value] + forms[i.value + 1..] + [form.(deleted := true)];
      }
    }

    /** `restore`: the form with that id is replaced by a copy that is not deleted, at the end. */
    method Restore(id: int)
      modifies this
      ensures forms == Marked(old(forms), id, false)
      ensures |forms| == |old(forms)|
    {
      var i := FirstIndex(forms, WithId(id));
      if i.Some? {
        var form := forms[i.value];
        forms := forms[..i.value] + forms[i.value + 1..] + [form.(deleted := false)];
      }
    }
  }

  /** After `save`, the not-deleted query for the saved form's id ends with that form. */
  lemma {:induction false} SaveThenQuery(forms: seq<Form>, form: Form)
    requires !form.deleted
    ensures GetByJrFormIdNotDeleted(forms + [form], Some(form.jrFormId)) == GetByJrFormIdNotDeleted(forms, Some(form.jrFormId)) + [form]
  {
    GetByJrFormIdNotDeletedInOrder(forms, [form], Some(form.jrFormId));
    assert GetByJrFormIdNotDeleted([form], Some(form.jrFormId)) == [form] by {
      assert [form][1..] == [];
    }
  }
}
