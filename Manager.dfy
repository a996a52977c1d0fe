/** `ResourceManager`: the saved records, the selection of cards, the record
    being edited and the list's filter state, and the operations that change
    them. Rendering, storage and dialogs are not part of this model: what the
    user types into a prompt is a parameter, and the form's fields arrive as
    a `Form` value. */
module Manager {

  import opened Wrappers
  import opened Text
  import opened Records
  import opened Sorting
  import opened Edits
  import Bookmarks

  /** The option value of "create a new category" in the category selects. */
  const NewCategoryOption := "_NEW_CATEGORY_"

  /** How an operation ended: it did its work, the user cancelled the
      prompt, the form was rejected, or the JavaScript would have thrown a
      `TypeError` on an index with no record behind it. */
  datatype Outcome = Completed | Cancelled | Rejected | Threw

  /** The values of the resource form's fields as the user left them. */
  datatype Form = Form(
    title: string,
    url: string,
    email: string,
    category: string,
    notes: string,
    pinned: bool)

  /** The category a select offering "create new" yields: its own value, or
      for `_NEW_CATEGORY_` the trimmed reply to the prompt; `None` when that
      prompt is cancelled (`null`) or answered with blanks. */
  function ChosenCategory(selectValue: string, promptReply: Option<string>): (r: Option<string>)
    ensures selectValue != NewCategoryOption ==> r == Some(selectValue)
    ensures selectValue == NewCategoryOption ==>
      (r.None? <==> promptReply.None? || forall k :: 0 <= k < |promptReply.value| ==> IsSpace(promptReply.value[k]))
    ensures selectValue == NewCategoryOption && r.Some? ==>
      promptReply.Some? && r.value == Trim(promptReply.value)
    ensures selectValue == NewCategoryOption && r.Some? ==> r.value != "" && Trimmed(r.value)
  {
    if selectValue != NewCategoryOption then Some(selectValue)
    else if promptReply.None? || Trim(promptReply.value) == "" then None
    else Some(Trim(promptReply.value))
  }

  /** `category || 'Sin Categoría'`. */
  function OrUncategorized(c: string): (r: string)
    ensures r != ""
    ensures c == "" ==> r == Uncategorized
    ensures c != "" ==> r == c
  {
    if c == "" then Uncategorized else c
  }

  /** The `resourceData` object `handleFormSubmit` builds: every text field
      trimmed, and the category defaulted. */
  function SubmittedData(form: Form, category: string): (d: Form)
    ensures d.title == Trim(form.title) && d.url == Trim(form.url)
    ensures d.email == Trim(form.email) && d.notes == Trim(form.notes)
    ensures d.category == OrUncategorized(category) && d.category != ""
    ensures d.pinned == form.pinned
    ensures Trimmed(d.title) && Trimmed(d.url) && Trimmed(d.email) && Trimmed(d.notes)
  {
    Form(Trim(form.title), Trim(form.url), Trim(form.email), OrUncategorized(category), Trim(form.notes), form.pinned)
  }

  /** `{ ...existing, ...data }`: the form's fields replace the record's,
      and the creation time stays. */
  function Merge(existing: Resource, d: Form): (r: Resource)
    ensures r.createdAt == existing.createdAt
    ensures r.title == d.title && r.url == d.url && r.email == d.email
    ensures r.category == d.category && r.notes == d.notes && r.pinned == d.pinned
  {
    Resource(d.title, d.url, d.email, d.category, d.notes, d.pinned, existing.createdAt)
  }

  /** A record as the form stores it: title and URL present and trimmed,
      and a category. */
  predicate Submitted(r: Resource)
  {
    && r.title != "" && Trimmed(r.title)
    && r.url != "" && Trimmed(r.url)
    && r.category != ""
  }

  /** The list after `handleFormSubmit` stores `d`: with `editIndex` at a
      record, that record merged with `d`; with -1, a new record created at
      `now` appended. */
  function AfterSubmit(rs: seq<Resource>, editIndex: int, d: Form, now: int): seq<Resource>
    requires editIndex < |rs|
  {
    if editIndex >= 0 then rs[editIndex := Merge(rs[editIndex], d)]
    else rs + [Resource(d.title, d.url, d.email, d.category, d.notes, d.pinned, now)]
  }

  /** Storing form data changes one record, the edited one or a new last
      one, and leaves every other record as it was. That record carries the
      data's fields; an edit keeps the record's creation time and a new record
      is stamped `now`. Data that passed the form's checks (`SubmittedData`
      with a non-blank title and URL) makes a record with a trimmed title and
      URL and a category. */
  lemma AfterSubmitStoresForm(rs: seq<Resource>, editIndex: int, d: Form, now: int)
    requires editIndex < |rs|
    ensures var after := AfterSubmit(rs, editIndex, d, now);
      var at := if editIndex >= 0 then editIndex else |rs|;
      && |after| == (if editIndex >= 0 then |rs| else |rs| + 1)
      && (forall k :: 0 <= k < |rs| && k != at ==> after[k] == rs[k])
      && after[at].title == d.title && after[at].url == d.url && after[at].email == d.email
      && after[at].category == d.category && after[at].notes == d.notes && after[at].pinned == d.pinned
      && after[at].createdAt == (if editIndex >= 0 then rs[editIndex].createdAt else now)
      && (d.title != "" && d.url != "" && Trimmed(d.title) && Trimmed(d.url) && d.category != "" ==> Submitted(after[at]))
  {
    var after := AfterSubmit(rs, editIndex, d, now);
    if editIndex >= 0 {
      assert after[editIndex] == Merge(rs[editIndex], d);
    } else {
      assert after[|rs|] == Resource(d.title, d.url, d.email, d.category, d.notes, d.pinned, now);
    }
  }

  class ResourceManager {
    /** `this.resources`. */
    var resources: seq<Resource>
    /** `this.selectedIndices`, a `Set` of card indices, in insertion order. */
    var selected: seq<nat>
    /** `this.currentEditIndex`: the record the form edits, or -1 for a new one. */
    var currentEditIndex: int
    /** `this.state.search`, already lower-cased. */
    var search: string
    /** `this.state.category`, or "" for every category. */
    var category: string

    /** A `Set` holds each index once. */
    predicate Valid()
      reads this
    {
      Distinct(selected)
    }

    /** The constructor followed by `loadResources`: the stored list and
        filter state, nothing selected, nothing being edited. */
    constructor (stored: seq<Resource>, storedSearch: string, storedCategory: string)
      ensures Valid()
      ensures resources == stored && selected == [] && currentEditIndex == -1
      ensures search == storedSearch && category == storedCategory
    {
      resources := stored;
      selected := [];
      currentEditIndex := -1;
      search := storedSearch;
      category := storedCategory;
    }

    /** `openModal(index)`: remembers which record the form edits and, for
        an existing one, returns the values the form is filled with. An
        index with no record behind it throws once it is remembered. */
    method OpenModal(index: int) returns (outcome: Outcome, form: Option<Form>)
      requires Valid()
      modifies this
      ensures Valid()
      ensures currentEditIndex == index
      ensures resources == old(resources) && selected == old(selected)
      ensures search == old(search) && category == old(category)
      ensures index < 0 ==> outcome == Completed && form == None
      ensures index >= |resources| ==> outcome == Threw && form == None
      ensures 0 <= index < |resources| ==> outcome == Completed && form.Some?
      ensures 0 <= index < |resources| ==>
        var r := resources[index];
        form == Some(Form(r.title, r.url, r.email, r.category, r.notes, r.pinned))
    {
      currentEditIndex := index;
      form := None;
      if index >= 0 {
        if index >= |resources| {
          outcome := Threw;
          return;
        }
        var r := resources[index];
        form := Some(Form(r.title, r.url, r.email, r.category, r.notes, r.pinned));
      }
      outcome := Completed;
    }

    /** `handleFormSubmit`: a cancelled category prompt or a blank title or
        URL changes nothing; otherwise the form's data is stored, into the
        record being edited or as a new record created at `now`. */
    method HandleFormSubmit(form: Form, promptReply: Option<string>, now: int) returns (outcome: Outcome)
      requires Valid()
      requires currentEditIndex < |resources|
      modifies this
      ensures Valid()
      ensures selected == old(selected) && currentEditIndex == old(currentEditIndex)
      ensures search == old(search) && category == old(category)
      ensures ChosenCategory(form.category, promptReply).None? ==> outcome == Cancelled && resources == old(resources)
      ensures ChosenCategory(form.category, promptReply).Some? ==>
        var d := SubmittedData(form, ChosenCategory(form.category, promptReply).value);
        && (d.title == "" || d.url == "" ==> outcome == Rejected && resources == old(resources))
        && (d.title != "" && d.url != "" ==> outcome == Completed && resources == AfterSubmit(old(resources), currentEditIndex, d, now))
    {
      var chosen := ChosenCategory(form.category, promptReply);
      if chosen.None? {
        return Cancelled;
      }
      var d := SubmittedData(form, chosen.value);
      if d.title == "" || d.url == "" {
        return Rejected;
      }
      Store(d, now);
      outcome := Completed;
    }

    /** The end of `handleFormSubmit`: the record being edited takes the
        form's data, or a new record created at `now` is appended. */
    method Store(d: Form, now: int)
      requires Valid()
      requires currentEditIndex < |resources|
      modifies this
      ensures Valid()
      ensures selected == old(selected) && currentEditIndex == old(currentEditIndex)
      ensures search == old(search) && category == old(category)
      ensures resources == AfterSubmit(old(resources), currentEditIndex, d, now)
    {
      if currentEditIndex >= 0 {
        resources := resources[currentEditIndex := Merge(resources[currentEditIndex], d)];
      } else {
        resources := resources + [Resource(d.title, d.url, d.email, d.category, d.notes, d.pinned, now)];
      }
    }

    /** `deleteResource(index)`: removes the record and forgets that index
        in the selection, but leaves every other selected index as it was,
        even those that now name the next record. */
    method DeleteResource(index: nat)
      requires Valid()
      modifies this
      ensures Valid()
      ensures resources == SpliceOne(old(resources), index)
      ensures selected == RemoveValue(old(selected), index)
      ensures currentEditIndex == old(currentEditIndex) && search == old(search) && category == old(category)
    {
      resources := SpliceOne(resources, index);
      selected := RemoveValue(selected, index);
    }

    /** `togglePinned(index)`: flips the record's pin; without a record at
        `index` the JavaScript throws and nothing changes. */
    method TogglePinned(index: nat) returns (outcome: Outcome)
      requires Valid()
      modifies this
      ensures Valid()
      ensures index < |old(resources)| ==> outcome == Completed && resources == FlipPinned(old(resources), index)
      ensures index >= |old(resources)| ==> outcome == Threw && resources == old(resources)
      ensures selected == old(selected) && currentEditIndex == old(currentEditIndex)
      ensures search == old(search) && category == old(category)
    {
      if index >= |resources| {
        return Threw;
      }
      resources := FlipPinned(resources, index);
      outcome := Completed;
    }

    /** `toggleSelection(index)`: deselects a selected card, selects any other. */
    method ToggleSelection(index: nat)
      requires Valid()
      modifies this
      ensures Valid()
      ensures selected == if index in old(selected) then RemoveValue(old(selected), index) else old(selected) + [index]
      ensures index in selected <==> index !in old(selected)
      ensures forall y :: y != index ==> (y in selected <==> y in old(selected))
      ensures resources == old(resources) && currentEditIndex == old(currentEditIndex)
      ensures search == old(search) && category == old(category)
    {
      if index in selected {
        selected := RemoveValue(selected, index);
      } else {
        selected := selected + [index];
      }
    }

    /** `bulkDelete`: removes every selected record, splicing from the
        highest index down, and clears the selection. The records that stay
        are exactly the unselected ones, in their original order. */
    method BulkDelete()
      requires Valid()
      modifies this
      ensures Valid()
      ensures resources == Retain(old(resources), Elements(old(selected)))
      ensures selected == []
      ensures currentEditIndex == old(currentEditIndex) && search == old(search) && category == old(category)
    {
      var order := Sort(selected, Descending);
      DescendingIsTotalPreorder();
      SortSorted(selected, Descending);
      SortDistinct(selected, Descending);
      ghost var original := resources;
      ghost var done: set<nat> := {};
      RetainNone(original, done);
      var i := 0;
      while i < |order|
        invariant 0 <= i <= |order|
        invariant done == Handled(order, i)
        invariant resources == Retain(original, done)
        invariant currentEditIndex == old(currentEditIndex) && search == old(search) && category == old(category)
        invariant selected == old(selected)
      {
        var index := order[i];
        HandledAreHigher(order, i);
        HandledNext(order, i);
        BulkDeleteStep(original, done, index);
        resources := SpliceOne(resources, index);
        done := done + {index};
        i := i + 1;
      }
      HandledAll(order, selected);
      selected := [];
    }

    /** `handleBulkChangeCategory`: asks for the category and gives it to
        every selected record (see `RecategorizeSelected`). */
    method HandleBulkChangeCategory(selectValue: string, promptReply: Option<string>) returns (outcome: Outcome)
      requires Valid()
      modifies this
      ensures Valid()
      ensures currentEditIndex == old(currentEditIndex) && search == old(search) && category == old(category)
      ensures ChosenCategory(selectValue, promptReply).None? ==>
        outcome == Cancelled && resources == old(resources) && selected == old(selected)
      ensures ChosenCategory(selectValue, promptReply).Some? ==>
        var value := OrUncategorized(ChosenCategory(selectValue, promptReply).value);
        var k := InRangePrefix(old(selected), |old(resources)|);
        && (k == |old(selected)| ==>
              outcome == Completed && selected == []
              && resources == Recategorize(old(resources), Elements(old(selected)), value))
        && (k < |old(selected)| ==>
              outcome == Threw && selected == old(selected)
              && resources == Recategorize(old(resources), Elements(old(selected)[..k]), value))
    {
      var chosen := ChosenCategory(selectValue, promptReply);
      if chosen.None? {
        return Cancelled;
      }
      outcome := RecategorizeSelected(OrUncategorized(chosen.value));
    }

    /** The `forEach` of `handleBulkChangeCategory` and the clearing after
        it: every selected record gets `value` and the selection is cleared.
        The selection is visited in insertion order; at the first index with
        no record behind it the JavaScript throws, the records visited before
        it keep their new category and the selection stays. */
    method RecategorizeSelected(value: string) returns (outcome: Outcome)
      requires Valid()
      modifies this
      ensures Valid()
      ensures currentEditIndex == old(currentEditIndex) && search == old(search) && category == old(category)
      ensures var k := InRangePrefix(old(selected), |old(resources)|);
        && (k == |old(selected)| ==>
              outcome == Completed && selected == []
              && resources == Recategorize(old(resources), Elements(old(selected)), value))
        && (k < |old(selected)| ==>
              outcome == Threw && selected == old(selected)
              && resources == Recategorize(old(resources), Elements(old(selected)[..k]), value))
    {
      var i := 0;
      while i < |selected|
        invariant 0 <= i <= |selected|
        invariant |resources| == |old(resources)|
        invariant forall j :: 0 <= j < i ==> selected[j] < |resources|
        invariant resources == Recategorize(old(resources), Elements(selected[..i]), value)
        invariant selected == old(selected)
        invariant currentEditIndex == old(currentEditIndex) && search == old(search) && category == old(category)
      {
        var index := selected[i];
        if index >= |resources| {
          return Threw;
        }
        RecategorizeStep(old(resources), selected, i, value);
        resources := resources[index := resources[index].(category := value)];
        i := i + 1;
      }
      assert selected[..i] == selected;
      selected := [];
      outcome := Completed;
    }

    /** The import step of `handleImportFile`: parses the document; when it
        yields records they are appended and the search and category filters
        are reset, and when it yields none nothing changes. */
    method ImportBookmarks(doc: Bookmarks.Node, env: Bookmarks.ImportEnv) returns (count: nat)
      requires Valid()
      modifies this
      ensures Valid()
      ensures count == |Bookmarks.Parse(doc, env)|
      ensures count == 0 ==> resources == old(resources) && search == old(search) && category == old(category)
      ensures count > 0 ==> resources == old(resources) + Bookmarks.Parse(doc, env) && search == "" && category == ""
      ensures selected == old(selected) && currentEditIndex == old(currentEditIndex)
    {
      var imported := Bookmarks.ParseBookmarks(doc, env);
      if |imported| == 0 {
        return 0;
      }
      resources := resources + imported;
      search := "";
      category := "";
      count := |imported|;
    }
  }

  /** After `deleteResource(d)` a selected index above `d` stays selected but
      now names the record that followed it, or no record at all when it was
      the last one. */
  lemma DeleteLeavesStaleSelection(rs: seq<Resource>, sel: seq<nat>, d: nat, x: nat)
    requires d < x < |rs| && x in sel
    ensures x in RemoveValue(sel, d)
    ensures x + 1 < |rs| ==> SpliceOne(rs, d)[x] == rs[x + 1]
    ensures x + 1 == |rs| ==> x >= |SpliceOne(rs, d)|
  {
  }
}
