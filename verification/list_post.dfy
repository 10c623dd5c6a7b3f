/**
 The post list and editor screen: the draft post bound to the modal form,
 the save validator, the choice of backend request each handler makes, and
 the component state those handlers update. Requests are returned as values
 and responses are passed in; nothing here performs I/O.
 */
module ListPost {
  import opened Text

  datatype Option<T> = None | Some(value: T)

  /** A blog post record. `content` is optional in the record type. */
  datatype Post = Post(
    id: int,
    title: string,
    image: string,
    content: Option<string>,
    date: string,
    status: bool)

  /** The form fields a change event can name. */
  datatype Field = Title | Image | Content

  /** The two messages the validator can raise. */
  datatype ValidationError = BlankField | DuplicateTitle

  /** A request to the backend's post resource. */
  datatype Req =
    | GetAll                          // GET /posts
    | GetLike(keyword: string)        // GET /posts?title_like={keyword}
    | Create(body: Post)              // POST /posts
    | Put(id: int, body: Post)        // PUT /posts/{id}
    | Patch(id: int, status: bool)    // PATCH /posts/{id} with {status}

  /** The draft the form starts from and returns to: id 0, empty strings,
      published, dated with the given (opaque) date string. */
  function DefaultPost(today: string): (p: Post)
    ensures p.id == 0 && p.title == "" && p.image == "" && p.content == Some("")
    ensures p.date == today && p.status
    ensures IsResetDraft(p)
  {
    Post(0, "", "", Some(""), today, true)
  }

  /** The shape `resetForm` gives the draft, whatever date it was stamped
      with. */
  predicate IsResetDraft(p: Post) {
    p.id == 0 && p.title == "" && p.image == "" && p.content == Some("") && p.status
  }

  /** `{ ...p, [name]: v }` for one of the form's fields. */
  function WithField(p: Post, name: Field, v: string): (r: Post)
    ensures r.id == p.id && r.date == p.date && r.status == p.status
    ensures r.title == (if name == Title then v else p.title)
    ensures r.image == (if name == Image then v else p.image)
    ensures r.content == (if name == Content then Some(v) else p.content)
  {
    match name
    case Title => p.(title := v)
    case Image => p.(image := v)
    case Content => p.(content := Some(v))
  }

  /** The position of the element `Array.prototype.find` returns: the first
      index whose element satisfies `p`, or none when no element does. */
  function FindIndex<T>(s: seq<T>, p: T -> bool): (r: Option<nat>)
    ensures r.None? <==> forall i :: 0 <= i < |s| ==> !p(s[i])
    ensures r.Some? ==> r.value < |s| && p(s[r.value])
    ensures r.Some? ==> forall j :: 0 <= j < r.value ==> !p(s[j])
  {
    if s == [] then None
    else if p(s[0]) then Some(0)
    else match FindIndex(s[1..], p)
      case None => None
      case Some(i) => Some(i + 1)
  }

  // ---------------------------------------------------------------- validation

  /** Title, image or content is missing or whitespace-only. */
  predicate HasBlankField(draft: Post) {
    IsBlank(draft.title) || IsBlank(draft.image) ||
    draft.content.None? || IsBlank(draft.content.value)
  }

  /** `q` clashes with the draft: same title (exact, untrimmed) and an id other
      than the one being edited. With no id being edited every id differs. */
  predicate IsDuplicate(q: Post, draft: Post, editId: Option<int>) {
    q.title == draft.title && Some(q.id) != editId
  }

  /** Some loaded post clashes with the draft. */
  predicate HasDuplicate(posts: seq<Post>, draft: Post, editId: Option<int>) {
    exists q :: q in posts && IsDuplicate(q, draft, editId)
  }

  /** `validate`: the blank-field error first, then the duplicate-title error,
      else no error. */
  function Validate(draft: Post, posts: seq<Post>, editId: Option<int>): (r: Option<ValidationError>)
    ensures r == Some(BlankField) <==> HasBlankField(draft)
    ensures r == Some(DuplicateTitle) <==> !HasBlankField(draft) && HasDuplicate(posts, draft, editId)
    ensures r == None <==> !HasBlankField(draft) && !HasDuplicate(posts, draft, editId)
  {
    if Trim(draft.title) == [] || Trim(draft.image) == [] ||
       draft.content.None? || Trim(draft.content.value) == []
    then Some(BlankField)
    else
      var dup := FindIndex(posts, q => IsDuplicate(q, draft, editId));
      if dup.Some? then
        assert posts[dup.value] in posts;
        Some(DuplicateTitle)
      else
        None
  }

  /** What `handleSave` sends: nothing when the draft is invalid, a PUT of the
      draft to the edited id in edit mode with a known id, a POST otherwise. */
  function SaveRequest(draft: Post, posts: seq<Post>, isEdit: bool, editId: Option<int>): (r: Option<Req>)
    ensures r.None? <==> HasBlankField(draft) || HasDuplicate(posts, draft, editId)
    ensures r.Some? && isEdit && editId.Some? ==> r.value == Put(editId.value, draft)
    ensures r.Some? && !(isEdit && editId.Some?) ==> r.value == Create(draft)
  {
    if Validate(draft, posts, editId).Some? then None
    else if isEdit && editId.Some? then Some(Put(editId.value, draft))
    else Some(Create(draft))
  }

  /** `posts.find((e) => e.id === id)`, as the position of the post found. */
  function FindById(posts: seq<Post>, id: int): (r: Option<nat>)
    ensures r.None? <==> forall i :: 0 <= i < |posts| ==> posts[i].id != id
    ensures r.Some? ==> r.value < |posts| && posts[r.value].id == id
    ensures r.Some? ==> forall j :: 0 <= j < r.value ==> posts[j].id != id
  {
    FindIndex(posts, (e: Post) => e.id == id)
  }

  /** What `handleSetStatus(id)` sends before reloading: a PATCH negating the
      status of the first local post with that id, nothing if there is none. */
  function ToggleRequest(posts: seq<Post>, id: int): (r: Option<Req>)
    ensures r.None? <==> forall i :: 0 <= i < |posts| ==> posts[i].id != id
    ensures forall i :: 0 <= i < |posts| && posts[i].id == id ==>
      ((forall j :: 0 <= j < i ==> posts[j].id != id) ==> r == Some(Patch(id, !posts[i].status)))
  {
    match FindById(posts, id)
    case None => None
    case Some(i) => Some(Patch(id, !posts[i].status))
  }

  /** What `handleSearch(keyword)` loads: everything for a blank keyword,
      otherwise the posts whose title contains the untrimmed keyword. */
  function SearchRequest(keyword: string): (r: Req)
    ensures r == GetAll <==> IsBlank(keyword)
    ensures !IsBlank(keyword) ==> r == GetLike(keyword)
  {
    if Trim(keyword) == [] then GetAll else GetLike(keyword)
  }

  // ----------------------------------------------------- the backend's PATCH

  /** Post ids are unique, as the backend assigns them. */
  predicate UniqueIds(posts: seq<Post>) {
    forall i, j :: 0 <= i < j < |posts| ==> posts[i].id != posts[j].id
  }

  /** The collection the backend holds after `PATCH /posts/{id}` with
      `{status}`: every record with that id gets the new status, nothing else
      changes. */
  function PatchStatus(posts: seq<Post>, id: int, status: bool): (r: seq<Post>)
    ensures |r| == |posts|
    ensures forall i :: 0 <= i < |posts| ==>
      r[i] == if posts[i].id == id then posts[i].(status := status) else posts[i]
  {
    if posts == [] then []
    else
      var head := if posts[0].id == id then posts[0].(status := status) else posts[0];
      [head] + PatchStatus(posts[1..], id, status)
  }

  // ------------------------------------------------------------------- lemmas

  /** Editing a post whose title no other post carries: keeping that title
      never raises the duplicate error, the edited post itself included. */
  lemma {:induction false} UnchangedTitleNotDuplicate(draft: Post, posts: seq<Post>, p: Post)
    requires draft.title == p.title
    requires forall q :: q in posts && q.title == p.title ==> q.id == p.id
    ensures Validate(draft, posts, Some(p.id)) != Some(DuplicateTitle)
    ensures !HasBlankField(draft) ==> Validate(draft, posts, Some(p.id)) == None
  {
    assert forall q :: q in posts ==> !IsDuplicate(q, draft, Some(p.id));
  }

  /** In create mode any post with the same title is a duplicate, including one
      with id 0. */
  lemma {:induction false} CreateModeDuplicate(draft: Post, posts: seq<Post>)
    requires !HasBlankField(draft)
    ensures Validate(draft, posts, None) == Some(DuplicateTitle) <==>
      exists q :: q in posts && q.title == draft.title
  {
    if exists q :: q in posts && q.title == draft.title {
      var q :| q in posts && q.title == draft.title;
      assert IsDuplicate(q, draft, None);
    } else {
      assert !HasDuplicate(posts, draft, None);
    }
  }

  /** With the modal invariant in force, the `editId !== null` half of the
      save condition is redundant: the draft is PUT exactly in edit mode. */
  lemma {:induction false} PutExactlyWhenEditing(draft: Post, posts: seq<Post>, show: bool, isEdit: bool, editId: Option<int>)
    requires ModalConsistent(show, isEdit, editId)
    ensures SaveRequest(draft, posts, isEdit, editId).Some? ==>
      (SaveRequest(draft, posts, isEdit, editId).value.Put? <==> isEdit)
  {
  }

  /** The collection holds one post titled "A": a new draft titled "A" is
      rejected. */
  lemma {:induction false} SaveExampleRejected(a: Post, draft: Post)
    requires a.title == "A" && draft.title == "A"
    ensures SaveRequest(draft, [a], false, None).None?
  {
    assert a in [a] && IsDuplicate(a, draft, None);
    assert HasDuplicate([a], draft, None);
  }

  /** The collection holds one post titled "A": a new draft titled "B" with
      its other fields filled in is POSTed. */
  lemma {:induction false} SaveExampleAccepted(a: Post, draft: Post)
    requires a.title == "A" && draft.title == "B"
    requires !HasBlankField(draft)
    ensures SaveRequest(draft, [a], false, None) == Some(Create(draft))
  {
    assert "A"[0] != "B"[0];
    assert forall q :: q in [a] ==> !IsDuplicate(q, draft, None);
    assert !HasDuplicate([a], draft, None);
  }

  /** Toggling a post, letting the backend apply the PATCH, and toggling it
      again asks for its original status back. */
  lemma {:induction false} ToggleTwiceAlternates(posts: seq<Post>, id: int)
    requires ToggleRequest(posts, id).Some?
    ensures var first := ToggleRequest(posts, id).value;
      var second := ToggleRequest(PatchStatus(posts, id, first.status), id);
      second.Some? && second.value == Patch(id, !first.status)
  {
    var i := FindById(posts, id).value;
    ToggleAfterPatch(posts, id, i, !posts[i].status);
  }

  /** After the backend patched the records with id `id` to `status`, the
      first of them is still at index `i` and now carries `status`, so the
      next toggle asks for `!status`. */
  lemma {:induction false} ToggleAfterPatch(posts: seq<Post>, id: int, i: nat, status: bool)
    requires i < |posts| && posts[i].id == id
    requires forall j :: 0 <= j < i ==> posts[j].id != id
    ensures ToggleRequest(PatchStatus(posts, id, status), id) == Some(Patch(id, !status))
  {
    var after := PatchStatus(posts, id, status);
    assert after[i].id == id && after[i].status == status;
    assert forall j :: 0 <= j < i ==> after[j].id != id;
  }

  /** With unique ids, the double toggle leaves the backend's collection as it
      was. */
  lemma {:induction false} DoubleToggleRestores(posts: seq<Post>, id: int)
    requires UniqueIds(posts)
    requires ToggleRequest(posts, id).Some?
    ensures var first := ToggleRequest(posts, id).value;
      var after := PatchStatus(posts, id, first.status);
      var second := ToggleRequest(after, id);
      second.Some? && PatchStatus(after, id, second.value.status) == posts
  {
    var i := FindById(posts, id).value;
    var first := ToggleRequest(posts, id).value;
    ToggleTwiceAlternates(posts, id);
    assert first == Patch(id, !posts[i].status);
    PatchBackRestores(posts, id, i, first.status);
  }

  /** Patching the one record with id `id` to any status and then back to its
      old status restores the collection. */
  lemma {:induction false} PatchBackRestores(posts: seq<Post>, id: int, i: nat, status: bool)
    requires UniqueIds(posts)
    requires i < |posts| && posts[i].id == id
    ensures PatchStatus(PatchStatus(posts, id, status), id, posts[i].status) == posts
  {
    var after := PatchStatus(posts, id, status);
    var back := PatchStatus(after, id, posts[i].status);
    // unique ids: index i is the only record the two patches touch
    forall k | 0 <= k < |posts| ensures back[k] == posts[k] {
    }
  }

  // ------------------------------------------------------------ the component

  /** The modal's lifecycle, as the component's flags encode it. */
  datatype Modal = Closed | Creating | Editing(id: int)

  /** Edit mode always carries the edited id and always has the modal open. */
  predicate ModalConsistent(show: bool, isEdit: bool, editId: Option<int>) {
    (isEdit <==> editId.Some?) && (isEdit ==> show)
  }

  /** The state of the `ListPost` component. */
  class Editor {
    var posts: seq<Post>
    var show: bool
    var isEdit: bool
    var editId: Option<int>
    var searchTerm: string
    var notFound: bool
    var post: Post

    /** The modal invariant, and a closed modal always holds a reset draft
        (every way to close it goes through `resetForm`). */
    ghost predicate Valid()
      reads this
    {
      ModalConsistent(show, isEdit, editId) && (!show ==> IsResetDraft(post))
    }

    ghost function Mode(): Modal
      reads this
      requires Valid()
    {
      if !show then Closed else if isEdit then Editing(editId.value) else Creating
    }

    /** The initial state: no posts, modal closed, not editing, empty search,
        the default draft. */
    constructor (today: string)
      ensures Valid() && Mode() == Closed
      ensures posts == [] && !isEdit && editId == None
      ensures searchTerm == "" && !notFound && post == DefaultPost(today)
    {
      posts := [];
      show := false;
      isEdit := false;
      editId := None;
      searchTerm := "";
      notFound := false;
      post := DefaultPost(today);
    }

    /** The load issued when the component is first displayed. */
    method Mount() returns (req: Req)
      ensures req == GetAll
    {
      req := GetAll;
    }

    /** `resetForm`: the draft goes back to the default. */
    method ResetForm(today: string)
      modifies this`post
      ensures post == DefaultPost(today)
    {
      post := DefaultPost(today);
    }

    /** `handleClose`: modal closed, edit mode left, draft reset; the loaded
        posts and the search are untouched. */
    method HandleClose(today: string)
      modifies this`show, this`isEdit, this`editId, this`post
      ensures Valid() && Mode() == Closed
      ensures !isEdit && editId == None && post == DefaultPost(today)
    {
      show := false;
      isEdit := false;
      editId := None;
      ResetForm(today);
    }

    /** `handleShow`: opens the modal; a closed modal opens in create mode. */
    method HandleShow()
      requires Valid()
      modifies this`show
      ensures Valid() && show
      ensures Mode() == if old(Mode()) == Closed then Creating else old(Mode())
      ensures old(Mode()) == Closed ==> IsResetDraft(post)
    {
      show := true;
    }

    /** `handleEdit(p)`: the draft becomes a copy of `p`, edit mode records
        its id, and the modal opens. */
    method HandleEdit(p: Post)
      modifies this`post, this`isEdit, this`editId, this`show
      ensures Valid() && Mode() == Editing(p.id)
      ensures post == p && isEdit && editId == Some(p.id) && show
    {
      post := p;
      isEdit := true;
      editId := Some(p.id);
      show := true;
    }

    /** `handleChange`: a file input with at least one file stores the object
        URL made for the first file (given here as `fileUrls`), any other input
        stores its value; only the named draft field changes. The inputs that
        raise it live in the modal's form, so the modal is open. */
    method HandleChange(name: Field, value: string, isFile: bool, fileUrls: seq<string>)
      requires Valid() && show
      modifies this`post
      ensures Valid()
      ensures post == WithField(old(post), name, if isFile && |fileUrls| > 0 then fileUrls[0] else value)
    {
      if isFile && |fileUrls| > 0 {
        post := WithField(post, name, fileUrls[0]);
      } else {
        post := WithField(post, name, value);
      }
    }

    /** Applies the response of a load (full or filtered): the posts are
        replaced and "not found" is raised exactly for an empty response. */
    method ApplyLoadResult(data: seq<Post>)
      modifies this`posts, this`notFound
      ensures posts == data && notFound == (|data| == 0)
    {
      posts := data;
      notFound := |data| == 0;
    }

    /** `handleSearch(keyword)`: records the keyword and issues the load
        `SearchRequest` chooses. */
    method HandleSearch(keyword: string) returns (req: Req)
      modifies this`searchTerm
      ensures searchTerm == keyword && req == SearchRequest(keyword)
    {
      searchTerm := keyword;
      if Trim(keyword) == [] {
        req := GetAll;
      } else {
        req := GetLike(keyword);
      }
    }

    /** `handleSave`. An invalid draft sends nothing and changes nothing.
        Otherwise the PUT or POST is sent; when it succeeds (`succeeded`) the modal
        closes, the draft is reset and a full reload follows; when it fails
        the state stays as it was. */
    method HandleSave(today: string, succeeded: bool) returns (reqs: seq<Req>)
      requires Valid()
      modifies this`show, this`isEdit, this`editId, this`post
      ensures Valid()
      ensures var r := SaveRequest(old(post), old(posts), old(isEdit), old(editId));
        reqs == (if r.None? then [] else if succeeded then [r.value, GetAll] else [r.value])
      ensures if SaveRequest(old(post), old(posts), old(isEdit), old(editId)).Some? && succeeded
        then Mode() == Closed && post == DefaultPost(today)
        else show == old(show) && isEdit == old(isEdit) && editId == old(editId) && post == old(post)
    {
      var error := Validate(post, posts, editId);
      if error.Some? {
        reqs := [];
        return;
      }
      var req := if isEdit && editId.Some? then Put(editId.value, post) else Create(post);
      if succeeded {
        HandleClose(today);
        reqs := [req, GetAll];
      } else {
        reqs := [req];
      }
    }

    /** `handleSetStatus(id)`: the PATCH `ToggleRequest` chooses, then a full
        reload, which is skipped only when a PATCH was sent and did not succeed. The
        component's own state is not changed until the reload is applied. */
    method HandleSetStatus(id: int, succeeded: bool) returns (reqs: seq<Req>)
      ensures var t := ToggleRequest(posts, id);
        reqs == (if t.None? then [GetAll] else [t.value] + (if succeeded then [GetAll] else []))
    {
      var found := FindById(posts, id);
      reqs := [];
      if found.Some? {
        reqs := [Patch(id, !posts[found.value].status)];
      }
      if found.None? || succeeded {
        reqs := reqs + [GetAll];
      }
    }
  }

  // ---------------------------------------------------------------- scenarios

  /** Entering edit mode on a post and cancelling leaves the loaded posts as
      they were and the draft at its default. */
  method EditThenCancel(e: Editor, p: Post, today: string)
    modifies e
    ensures e.Valid() && e.Mode() == Closed
    ensures e.posts == old(e.posts) && e.post == DefaultPost(today)
  {
    e.HandleEdit(p);
    e.HandleClose(today);
  }

  /** Clearing the search after a filtered one asks for the full collection,
      and applying that response shows all of it again. */
  method ClearSearchRestoresAll(e: Editor, keyword: string, filtered: seq<Post>, all: seq<Post>)
    returns (filteredReq: Req, clearedReq: Req)
    requires !IsBlank(keyword)
    modifies e
    ensures filteredReq == GetLike(keyword) && clearedReq == GetAll
    ensures e.posts == all && e.notFound == (|all| == 0) && e.searchTerm == ""
  {
    filteredReq := e.HandleSearch(keyword);
    e.ApplyLoadResult(filtered);
    clearedReq := e.HandleSearch("");
    e.ApplyLoadResult(all);
  }
}
