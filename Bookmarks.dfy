/** `ResourceManager.parseChromeBookmarks`: flattens a browser's bookmark export
    (a Netscape-style `<DL>`/`<DT>` outline, already parsed into an element tree)
    into resource records, one per web link, with the enclosing folders as the
    record's category path. */
module Bookmarks {

  import opened Wrappers
  import opened Text
  import opened Records

  /** An element of the parsed document. `tag` is the upper-case tag name,
      `children` the element children in document order, `text` the element's
      text content, `href` its resolved link target ("" when it has none) and
      `addDate` its `add_date` attribute. */
  datatype Node = Elem(
    tag: string,
    children: seq<Node>,
    text: string,
    href: string,
    addDate: Option<string>)

  /** The toolbar folder that browsers put at the top of a Spanish-language export. */
  const RootFolder := "Barra de marcadores"
  /** The category of a link outside any (surviving) folder. */
  const NoFolderCategory := "Importado"
  const UntitledLink := "Enlace sin título"
  const AddedPrefix := "Añadido: "
  const PathSeparator := " / "

  /** What a parse call takes from its surroundings: the current time, stamped
      on every record, and the locale's rendering of an `add_date` value. */
  datatype ImportEnv = ImportEnv(now: int, showDate: string -> string)

  /** Position of the first element of `cs` with tag `tag`. */
  function FirstIndex(cs: seq<Node>, tag: string): (r: Option<nat>)
    ensures r.Some? ==> r.value < |cs| && cs[r.value].tag == tag
    ensures r.Some? ==> forall j :: 0 <= j < r.value ==> cs[j].tag != tag
    ensures r.None? ==> forall j :: 0 <= j < |cs| ==> cs[j].tag != tag
    decreases |cs|
  {
    if cs == [] then None
    else if cs[0].tag == tag then Some(0)
    else match FirstIndex(cs[1..], tag)
      case None => None
      case Some(i) => Some(i + 1)
  }

  /** The first element of `cs` with tag `tag`. */
  function FirstTagged(cs: seq<Node>, tag: string): (r: Option<Node>)
    ensures r.Some? ==> r.value.tag == tag
    ensures r.Some? ==> exists i :: 0 <= i < |cs| && r.value == cs[i] && forall j :: 0 <= j < i ==> cs[j].tag != tag
    ensures r.None? <==> forall c :: c in cs ==> c.tag != tag
  {
    match FirstIndex(cs, tag)
    case None => None
    case Some(i) => Some(cs[i])
  }

  /** `FirstIndex` is the one position that is tagged with nothing tagged before it. */
  lemma FirstIndexIs(cs: seq<Node>, tag: string, k: nat)
    requires k < |cs| && cs[k].tag == tag
    requires forall j :: 0 <= j < k ==> cs[j].tag != tag
    ensures FirstIndex(cs, tag) == Some(k)
  {
  }

  /** The first tagged element of `a + b` is the first of `a`, or else the first of `b`. */
  lemma FirstTaggedAppend(a: seq<Node>, b: seq<Node>, tag: string)
    ensures FirstTagged(a + b, tag) == if FirstTagged(a, tag).Some? then FirstTagged(a, tag) else FirstTagged(b, tag)
  {
    var ab := a + b;
    match FirstIndex(a, tag)
    case Some(i) =>
      assert forall j :: 0 <= j < i ==> ab[j] == a[j];
      FirstIndexIs(ab, tag, i);
    case None =>
      match FirstIndex(b, tag)
      case Some(i) =>
        assert forall j :: 0 <= j < |a| ==> ab[j] == a[j];
        assert forall j :: |a| <= j < |a| + i ==> ab[j] == b[j - |a|];
        FirstIndexIs(ab, tag, |a| + i);
      case None =>
        assert forall c :: c in ab ==> c in a || c in b;
  }

  /** `n.querySelector(':scope > tag')`: the first direct child with that tag. */
  function Child(n: Node, tag: string): (r: Option<Node>)
    ensures r.Some? ==> r.value.tag == tag
    ensures r.Some? ==> exists i :: 0 <= i < |n.children| && r.value == n.children[i] && forall j :: 0 <= j < i ==> n.children[j].tag != tag
    ensures r.None? <==> forall c :: c in n.children ==> c.tag != tag
  {
    FirstTagged(n.children, tag)
  }

  /** Some element of the tree rooted at `n` has tag `tag`. */
  predicate HasTag(n: Node, tag: string)
    decreases n
  {
    n.tag == tag || exists j :: 0 <= j < |n.children| && HasTag(n.children[j], tag)
  }

  /** The elements of the tree rooted at `n` in document order: each element
      before its descendants, and a child's subtree before the next child's. */
  function Preorder(n: Node): seq<Node>
    decreases n, 1
  {
    [n] + PreorderFrom(n, 0)
  }

  /** The subtrees of children `i..` of `n`, in document order. */
  function PreorderFrom(n: Node, i: nat): seq<Node>
    requires i <= |n.children|
    decreases n, 0, |n.children| - i
  {
    if i == |n.children| then [] else Preorder(n.children[i]) + PreorderFrom(n, i + 1)
  }

  /** `document.querySelector(tag)`: the first element in document order. */
  function FindFirst(n: Node, tag: string): (r: Option<Node>)
    ensures r == FirstTagged(Preorder(n), tag)
    ensures r.Some? ==> r.value.tag == tag
    ensures r.None? <==> !HasTag(n, tag)
    decreases n, 1
  {
    FirstTaggedAppend([n], PreorderFrom(n, 0), tag);
    if n.tag == tag then Some(n) else FindFirstAmong(n, 0, tag)
  }

  /** The first element with tag `tag` in the subtrees of children `i..` of `n`. */
  function FindFirstAmong(n: Node, i: nat, tag: string): (r: Option<Node>)
    requires i <= |n.children|
    ensures r == FirstTagged(PreorderFrom(n, i), tag)
    ensures r.Some? ==> r.value.tag == tag
    ensures r.None? <==> forall j :: i <= j < |n.children| ==> !HasTag(n.children[j], tag)
    decreases n, 0, |n.children| - i
  {
    if i == |n.children| then None
    else
      FirstTaggedAppend(Preorder(n.children[i]), PreorderFrom(n, i + 1), tag);
      match FindFirst(n.children[i], tag)
      case Some(m) => Some(m)
      case None => FindFirstAmong(n, i + 1, tag)
  }

  /** How one `<DT>` reads: a folder (direct `H3` and direct `DL`, tested first),
      a web link (direct `A` whose target starts with "http"), or neither. */
  datatype Shape = Folder(name: string, list: Node) | Link(anchor: Node) | Neither

  function Classify(item: Node): (s: Shape)
    ensures s.Folder? <==> Child(item, "H3").Some? && Child(item, "DL").Some?
    ensures s.Folder? ==> s.list == Child(item, "DL").value && s.name == Trim(Child(item, "H3").value.text)
    ensures s.Link? ==> Child(item, "A") == Some(s.anchor) && StartsWith(s.anchor.href, "http")
    ensures s.Neither? ==> !s.Folder? && (Child(item, "A").None? || !StartsWith(Child(item, "A").value.href, "http"))
  {
    var h3 := Child(item, "H3");
    var subList := Child(item, "DL");
    var a := Child(item, "A");
    if h3.Some? && subList.Some? then Folder(Trim(h3.value.text), subList.value)
    else if a.Some? && a.value.href != "" && StartsWith(a.value.href, "http") then Link(a.value)
    else Neither
  }

  /** The folder path with a leading toolbar folder removed (only at the head). */
  function CleanStack(stack: seq<string>): seq<string>
  {
    if |stack| > 0 && stack[0] == RootFolder then stack[1..] else stack
  }

  /** The category of a link found under the folders `stack`. */
  function Category(stack: seq<string>): string
  {
    var clean := CleanStack(stack);
    if |clean| > 0 then Join(clean, PathSeparator) else NoFolderCategory
  }

  /** The record made for the link `a` found under the folders `stack`. */
  function LinkRecord(a: Node, stack: seq<string>, env: ImportEnv): Resource
  {
    var title := Trim(a.text);
    Resource(
      title := if title != "" then title else UntitledLink,
      url := a.href,
      email := "",
      category := Category(stack),
      notes := if a.addDate.Some? && a.addDate.value != "" then AddedPrefix + env.showDate(a.addDate.value) else "",
      pinned := false,
      createdAt := env.now)
  }

  /** The records one child of a list contributes, in document order. */
  function ItemRecords(item: Node, stack: seq<string>, env: ImportEnv): seq<Resource>
    decreases item, 2, 0
  {
    if item.tag != "DT" then []
    else match Classify(item)
      case Folder(name, list) => ListRecords(list, stack + [name], env)
      case Link(a) => [LinkRecord(a, stack, env)]
      case Neither => []
  }

  /** The records of the first `i` children of `list`. */
  function ListRecordsUpTo(list: Node, i: nat, stack: seq<string>, env: ImportEnv): seq<Resource>
    requires i <= |list.children|
    decreases list, 0, i
  {
    if i == 0 then []
    else ListRecordsUpTo(list, i - 1, stack, env) + ItemRecords(list.children[i - 1], stack, env)
  }

  /** `walk(list, stack)`: the records a `<DL>` contributes. */
  function ListRecords(list: Node, stack: seq<string>, env: ImportEnv): seq<Resource>
    decreases list, 1, 0
  {
    ListRecordsUpTo(list, |list.children|, stack, env)
  }

  /** One more child of the list adds its records after those of the earlier children. */
  lemma ListRecordsStep(start: seq<Resource>, list: Node, i: nat, stack: seq<string>, env: ImportEnv)
    requires i < |list.children|
    ensures start + ListRecordsUpTo(list, i + 1, stack, env)
         == start + ListRecordsUpTo(list, i, stack, env) + ItemRecords(list.children[i], stack, env)
  {
    var before := ListRecordsUpTo(list, i, stack, env);
    var item := ItemRecords(list.children[i], stack, env);
    assert ListRecordsUpTo(list, i + 1, stack, env) == before + item;
    AppendAssoc(start, before, item);
  }

  lemma AppendAssoc(a: seq<Resource>, b: seq<Resource>, c: seq<Resource>)
    ensures a + b + c == a + (b + c)
  {
  }

  /** `parseChromeBookmarks`: walk the first `<DL>` of the document, if any. */
  function Parse(doc: Node, env: ImportEnv): seq<Resource>
  {
    match FindFirst(doc, "DL")
    case None => []
    case Some(mainList) => ListRecords(mainList, [], env)
  }

  /** A `<DT>` with a direct `H3` and a direct `DL` is a folder and nothing else:
      it emits no record of its own, even when it also has a direct `A`, and its
      list is walked with the trimmed heading appended to the folder path. */
  lemma FolderTakesPriority(item: Node, stack: seq<string>, env: ImportEnv)
    requires item.tag == "DT" && Child(item, "H3").Some? && Child(item, "DL").Some?
    ensures ItemRecords(item, stack, env)
         == ListRecords(Child(item, "DL").value, stack + [Trim(Child(item, "H3").value.text)], env)
  {
  }

  /** A child that is not a `<DT>`, or a `<DT>` that is neither a folder nor a web
      link, adds nothing, and the walk goes on with the next sibling. */
  lemma SkippedChildAddsNothing(list: Node, i: nat, stack: seq<string>, env: ImportEnv)
    requires i < |list.children|
    requires var item := list.children[i];
      || item.tag != "DT"
      || (!(Child(item, "H3").Some? && Child(item, "DL").Some?)
          && (Child(item, "A").None? || !StartsWith(Child(item, "A").value.href, "http")))
    ensures ListRecordsUpTo(list, i + 1, stack, env) == ListRecordsUpTo(list, i, stack, env)
  {
  }

  /** A `<DT>` that is not a folder but has a direct `A` with a web target emits
      exactly one record, built from that anchor and the current folder path. */
  lemma LinkEmitsOneRecord(item: Node, stack: seq<string>, env: ImportEnv)
    requires item.tag == "DT" && !(Child(item, "H3").Some? && Child(item, "DL").Some?)
    requires Child(item, "A").Some? && StartsWith(Child(item, "A").value.href, "http")
    ensures var a := Child(item, "A").value;
            var rs := ItemRecords(item, stack, env);
            && |rs| == 1
            && rs[0].title == (if Trim(a.text) != "" then Trim(a.text) else UntitledLink)
            && rs[0].url == a.href
            && rs[0].email == ""
            && rs[0].category == Category(stack)
            && (rs[0].notes != "" <==> a.addDate.Some? && a.addDate.value != "")
            && !rs[0].pinned
            && rs[0].createdAt == env.now
  {
  }

  /** What every imported record looks like. */
  predicate ImportedShape(r: Resource, env: ImportEnv)
  {
    && r.title != ""
    && (r.title == UntitledLink || Trimmed(r.title))
    && StartsWith(r.url, "http")
    && r.email == ""
    && (r.notes == "" || StartsWith(r.notes, AddedPrefix))
    && !r.pinned
    && r.createdAt == env.now
  }

  /** Every record of a list, at any depth, has a non-empty trimmed title (or the
      placeholder), a web URL, no email, no pin, and the import time. */
  lemma {:induction false} ListRecordsShape(list: Node, stack: seq<string>, env: ImportEnv)
    ensures forall r :: r in ListRecords(list, stack, env) ==> ImportedShape(r, env)
    decreases list, 1, 0
  {
    UpToShape(list, |list.children|, stack, env);
  }

  lemma {:induction false} UpToShape(list: Node, i: nat, stack: seq<string>, env: ImportEnv)
    requires i <= |list.children|
    ensures forall r :: r in ListRecordsUpTo(list, i, stack, env) ==> ImportedShape(r, env)
    decreases list, 0, i
  {
    if i > 0 {
      UpToShape(list, i - 1, stack, env);
      ItemShape(list.children[i - 1], stack, env);
    }
  }

  lemma {:induction false} ItemShape(item: Node, stack: seq<string>, env: ImportEnv)
    ensures forall r :: r in ItemRecords(item, stack, env) ==> ImportedShape(r, env)
    decreases item, 2, 0
  {
    if item.tag == "DT" {
      var shape := Classify(item);
      if shape.Folder? {
        ListRecordsShape(shape.list, stack + [shape.name], env);
      } else if shape.Link? {
        LinkRecordShape(shape.anchor, stack, env);
      }
    }
  }

  lemma LinkRecordShape(a: Node, stack: seq<string>, env: ImportEnv)
    requires StartsWith(a.href, "http")
    ensures ImportedShape(LinkRecord(a, stack, env), env)
  {
    var r := LinkRecord(a, stack, env);
    assert r.notes != "" ==> r.notes[..|AddedPrefix|] == AddedPrefix;
  }

  /** The category drops the leading toolbar folder and nothing else: with no
      other folder left it is the placeholder, otherwise the remaining path. */
  lemma CategoryDropsLeadingRoot(rest: seq<string>)
    ensures Category([]) == NoFolderCategory
    ensures Category([RootFolder] + rest) == if rest == [] then NoFolderCategory else Join(rest, PathSeparator)
  {
    assert ([RootFolder] + rest)[1..] == rest;
  }

  /** A path that does not start with the toolbar folder is kept whole, even when
      the toolbar folder's name appears further down. */
  lemma CategoryKeepsOtherPaths(stack: seq<string>)
    requires stack != [] && stack[0] != RootFolder
    ensures Category(stack) == Join(stack, PathSeparator)
  {
  }

  /** Entering a sub-folder extends the category by " / " and the folder's name;
      directly under the toolbar folder (or under nothing) the name stands alone. */
  lemma CategoryExtend(stack: seq<string>, name: string)
    requires stack != []
    ensures Category(stack + [name])
         == if CleanStack(stack) == [] then name else Category(stack) + PathSeparator + name
  {
    var clean := CleanStack(stack);
    assert CleanStack(stack + [name]) == clean + [name] by {
      assert (stack + [name])[0] == stack[0];
      if stack[0] == RootFolder {
        assert (stack + [name])[1..] == stack[1..] + [name];
      }
    }
    if clean != [] {
      JoinAppend(clean, [name], PathSeparator);
    } else {
      assert clean + [name] == [name];
    }
  }

  /** The records of the first `i` children depend only on those children. */
  lemma {:induction false} UpToDependsOnPrefix(l: Node, m: Node, i: nat, stack: seq<string>, env: ImportEnv)
    requires i <= |l.children| && i <= |m.children|
    requires forall j :: 0 <= j < i ==> l.children[j] == m.children[j]
    ensures ListRecordsUpTo(l, i, stack, env) == ListRecordsUpTo(m, i, stack, env)
  {
    if i > 0 {
      UpToDependsOnPrefix(l, m, i - 1, stack, env);
    }
  }

  lemma UpToSplitFront(l: Node, f: Node, b: Node, stack: seq<string>, env: ImportEnv)
    requires l.children == f.children + b.children
    ensures ListRecordsUpTo(l, |f.children|, stack, env) == ListRecords(f, stack, env)
  {
    assert forall j :: 0 <= j < |f.children| ==> l.children[j] == f.children[j];
    UpToDependsOnPrefix(l, f, |f.children|, stack, env);
  }

  /** The records of `l` from child `n` on are those of `b` when `b`'s
      children are `l`'s from `n` on. */
  lemma {:induction false} UpToSplit(l: Node, b: Node, n: nat, k: nat, stack: seq<string>, env: ImportEnv)
    requires n + |b.children| == |l.children| && k <= |b.children|
    requires forall j :: 0 <= j < |b.children| ==> l.children[n + j] == b.children[j]
    ensures ListRecordsUpTo(l, n + k, stack, env)
         == ListRecordsUpTo(l, n, stack, env) + ListRecordsUpTo(b, k, stack, env)
  {
    if k > 0 {
      UpToSplit(l, b, n, k - 1, stack, env);
      UpToSplitNext(l, b, n, k, stack, env);
    }
  }

  /** The next child of `b` adds its records after those already collected. */
  lemma UpToSplitNext(l: Node, b: Node, n: nat, k: nat, stack: seq<string>, env: ImportEnv)
    requires n + |b.children| == |l.children| && 0 < k <= |b.children|
    requires l.children[n + k - 1] == b.children[k - 1]
    requires ListRecordsUpTo(l, n + (k - 1), stack, env)
          == ListRecordsUpTo(l, n, stack, env) + ListRecordsUpTo(b, k - 1, stack, env)
    ensures ListRecordsUpTo(l, n + k, stack, env)
         == ListRecordsUpTo(l, n, stack, env) + ListRecordsUpTo(b, k, stack, env)
  {
    var front := ListRecordsUpTo(l, n, stack, env);
    var item := ItemRecords(b.children[k - 1], stack, env);
    AppendAssoc(front, ListRecordsUpTo(b, k - 1, stack, env), item);
  }

  /** Splitting a list's children in two splits its records the same way: the
      records come out in document order, and what a child contributes does not
      depend on its siblings (each gets the same folder path, not one extended by
      an earlier sibling folder). */
  lemma ListRecordsAppend(l: Node, f: Node, b: Node, stack: seq<string>, env: ImportEnv)
    requires l.children == f.children + b.children
    ensures ListRecords(l, stack, env) == ListRecords(f, stack, env) + ListRecords(b, stack, env)
  {
    UpToSplitFront(l, f, b, stack, env);
    UpToSplit(l, b, |f.children|, |b.children|, stack, env);
  }

  /** A document without any `<DL>` yields no records. */
  lemma NoListNoRecords(doc: Node, env: ImportEnv)
    requires !HasTag(doc, "DL")
    ensures Parse(doc, env) == []
  {
  }

  /** Two sibling folders: each one's records carry its own name appended to the
      shared path, never the other's. */
  lemma SiblingFoldersIsolated(list: Node, stack: seq<string>, env: ImportEnv)
    requires |list.children| == 2
    requires list.children[0].tag == "DT" && Classify(list.children[0]).Folder?
    requires list.children[1].tag == "DT" && Classify(list.children[1]).Folder?
    ensures var first := Classify(list.children[0]);
            var second := Classify(list.children[1]);
            ListRecords(list, stack, env)
              == ListRecords(first.list, stack + [first.name], env)
               + ListRecords(second.list, stack + [second.name], env)
  {
    var first := Classify(list.children[0]);
    var second := Classify(list.children[1]);
    var a := ItemRecords(list.children[0], stack, env);
    var b := ItemRecords(list.children[1], stack, env);
    assert a == ListRecords(first.list, stack + [first.name], env);
    assert b == ListRecords(second.list, stack + [second.name], env);
    assert ListRecordsUpTo(list, 1, stack, env) == [] + a == a;
    assert ListRecordsUpTo(list, 2, stack, env) == a + b;
  }

  /** Categories of concrete paths under the toolbar folder. */
  lemma CategoryExamples()
    ensures Category([RootFolder]) == "Importado"
    ensures Category([RootFolder, "Dev"]) == "Dev"
    ensures Category([RootFolder, "A", "B"]) == "A / B"
    ensures Category([RootFolder, RootFolder]) == RootFolder
  {
    assert [RootFolder, RootFolder][1..] == [RootFolder];
    assert [RootFolder, "Dev"][1..] == ["Dev"];
    assert [RootFolder, "A", "B"][1..] == ["A", "B"];
    assert ["A", "B"][1..] == ["B"];
  }

  /** The recursive walk as the application runs it: a loop over the children
      of a list that pushes records into one shared `results` array. */
  class Walker {
    var results: seq<Resource>
    const env: ImportEnv

    constructor (env: ImportEnv)
      ensures results == [] && this.env == env
    {
      results := [];
      this.env := env;
    }

    /** `walk(listNode, categoryStack)`: appends the records of the list. */
    method Walk(listNode: Node, categoryStack: seq<string>)
      modifies this
      ensures results == old(results) + ListRecords(listNode, categoryStack, env)
      decreases listNode, 1
    {
      var i := 0;
      ghost var start := results;
      while i < |listNode.children|
        invariant i <= |listNode.children|
        invariant results == start + ListRecordsUpTo(listNode, i, categoryStack, env)
      {
        ListRecordsStep(start, listNode, i, categoryStack, env);
        VisitItem(listNode.children[i], categoryStack);
        i := i + 1;
      }
    }

    /** One pass of the loop in `walk`: a folder recurses with an extended copy
        of the stack, a web link pushes its record, anything else is skipped. */
    method VisitItem(itemNode: Node, categoryStack: seq<string>)
      modifies this
      ensures results == old(results) + ItemRecords(itemNode, categoryStack, env)
      decreases itemNode, 2
    {
      if itemNode.tag != "DT" {
        return;
      }
      var h3 := Child(itemNode, "H3");
      var subList := Child(itemNode, "DL");
      var a := Child(itemNode, "A");
      if h3.Some? && subList.Some? {
        var folderName := Trim(h3.value.text);
        var newCategoryStack := categoryStack + [folderName];
        Walk(subList.value, newCategoryStack);
      } else if a.Some? && a.value.href != "" && StartsWith(a.value.href, "http") {
        var cleanStack := categoryStack;
        if |cleanStack| > 0 && cleanStack[0] == RootFolder {
          cleanStack := cleanStack[1..];
        }
        var category := if |cleanStack| > 0 then Join(cleanStack, PathSeparator) else NoFolderCategory;
        var addDateAttr := a.value.addDate;
        var title := Trim(a.value.text);
        results := results + [Resource(
          title := if title != "" then title else UntitledLink,
          url := a.value.href,
          email := "",
          category := category,
          notes := if addDateAttr.Some? && addDateAttr.value != "" then AddedPrefix + env.showDate(addDateAttr.value) else "",
          pinned := false,
          createdAt := env.now)];
      }
    }
  }

  /** `parseChromeBookmarks` on an already parsed document. */
  method ParseBookmarks(doc: Node, env: ImportEnv) returns (results: seq<Resource>)
    ensures results == Parse(doc, env)
  {
    var walker := new Walker(env);
    var mainList := FindFirst(doc, "DL");
    if mainList.Some? {
      walker.Walk(mainList.value, []);
    }
    results := walker.results;
  }
}
