/** The dashboard page: the authentication gate on the stored session, the
    document list it fetches, deleting a document, logging out, and which
    of spinner, empty state or grid the page shows. */
module Dashboard {
  import opened Common

  /** A document as the list endpoint returns it; `id` is its `_id`. */
  datatype Doc = Doc(id: string, title: string, content: Option<string>)

  /** `documents.filter((doc) => doc._id !== id)`. */
  function RemoveById(docs: seq<Doc>, id: string): (r: seq<Doc>)
    ensures |r| <= |docs|
    ensures forall k :: 0 <= k < |r| ==> r[k].id != id
    ensures forall d :: d in docs && d.id != id ==> d in r
  {
    if docs == [] then []
    else if docs[0].id == id then RemoveById(docs[1..], id)
    else [docs[0]] + RemoveById(docs[1..], id)
  }

  /** Each document other than the removed id keeps its multiplicity, and
      every copy with that id is gone. */
  lemma {:induction false} RemoveByIdCounts(docs: seq<Doc>, id: string, d: Doc)
    ensures multiset(RemoveById(docs, id))[d] == if d.id == id then 0 else multiset(docs)[d]
  {
    if docs != [] {
      RemoveByIdCounts(docs[1..], id, d);
      assert docs == [docs[0]] + docs[1..];
    }
  }

  /** Filtering commutes with concatenation, so the documents that stay
      keep their relative order. */
  lemma {:induction false} RemoveByIdAppend(a: seq<Doc>, b: seq<Doc>, id: string)
    ensures RemoveById(a + b, id) == RemoveById(a, id) + RemoveById(b, id)
  {
    if a == [] {
      assert a + b == b;
    } else {
      assert (a + b)[1..] == a[1..] + b;
      RemoveByIdAppend(a[1..], b, id);
    }
  }

  /** A list without the id is left as it is. */
  lemma {:induction false} RemoveByIdAbsent(docs: seq<Doc>, id: string)
    requires forall k :: 0 <= k < |docs| ==> docs[k].id != id
    ensures RemoveById(docs, id) == docs
  {
    if docs != [] {
      RemoveByIdAbsent(docs[1..], id);
    }
  }

  /** Any two documents that stay appear in the same order as before. */
  lemma {:induction false} RemoveByIdKeepsOrder(docs: seq<Doc>, id: string, i: nat, j: nat)
    requires i < j < |docs| && docs[i].id != id && docs[j].id != id
    ensures var r := RemoveById(docs, id);
      exists p, q :: 0 <= p < q < |r| && r[p] == docs[i] && r[q] == docs[j]
  {
    var front, back := docs[..j], docs[j..];
    assert docs == front + back;
    RemoveByIdAppend(front, back, id);
    var rf, rb := RemoveById(front, id), RemoveById(back, id);
    assert docs[i] in front && docs[j] == back[0];
    var p :| 0 <= p < |rf| && rf[p] == docs[i];
    assert rb == [back[0]] + RemoveById(back[1..], id);
    var r := RemoveById(docs, id);
    assert r == rf + rb;
    assert r[p] == docs[i] && r[|rf|] == docs[j];
  }

  /** What the page renders. */
  datatype View = Spinner | EmptyState | Grid(count: nat, cards: seq<Doc>)

  const LoginRoute := "/auth/login"
  const HomeRoute := "/"
  const DocumentsPath := "/documents"

  /** The page's state together with the two `localStorage` entries it
      reads and removes, and the last route it pushed. */
  class DashboardPage {
    var documents: seq<Doc>
    var user: Option<string>
    var loading: bool
    /** `localStorage` "token" and "user". */
    var token: Option<string>
    var storedUser: Option<string>
    var route: Option<string>

    /** Documents only arrive with the fetch that ends loading, so the
        spinner never hides a non-empty list. */
    ghost predicate Valid()
      reads this
    {
      loading ==> documents == []
    }

    constructor (token: Option<string>, storedUser: Option<string>)
      ensures Valid()
      ensures documents == [] && user == None && loading
      ensures this.token == token && this.storedUser == storedUser && route == None
    {
      documents := [];
      user := None;
      loading := true;
      this.token := token;
      this.storedUser := storedUser;
      route := None;
    }

    /** `checkAuth`, with the reply the fetch it starts would get. Without a
        token the page goes to the login route and fetches nothing;
        otherwise the stored user is taken when there is one and the
        documents are always fetched. Returns the fetch request's path, if
        one is sent, and the toast raised. */
    method CheckAuth(response: Response<seq<Doc>>) returns (request: Option<string>, notice: Option<Notice>)
      requires Valid()
      modifies this`documents, this`user, this`loading, this`route
      ensures Valid()
      ensures request.Some? <==> Truthy(token)
      ensures !Truthy(token) ==>
        && route == Some(LoginRoute) && notice == None
        && unchanged(this`documents, this`user, this`loading)
      ensures Truthy(token) ==>
        && request == Some(DocumentsPath)
        && route == old(route)
        && user == (if Truthy(storedUser) then storedUser else old(user))
        && !loading
        && documents == (if response.Replied? && response.success then response.data else old(documents))
        && notice == (if response.Failed? then Some(Notice("Connection Error", ErrorLevel)) else None)
    {
      if !Truthy(token) {
        route := Some(LoginRoute);
        return None, None;
      }
      if Truthy(storedUser) {
        user := storedUser;
      }
      var path;
      path, notice := FetchDocuments(response);
      request := Some(path);
    }

    /** `fetchDocuments`: `GET /documents`. The list is replaced only by a
        successful reply, a rejected request raises "Connection Error", and
        loading ends whatever the outcome. */
    method FetchDocuments(response: Response<seq<Doc>>) returns (path: string, notice: Option<Notice>)
      requires Valid()
      modifies this`documents, this`loading
      ensures Valid()
      ensures path == DocumentsPath
      ensures !loading
      ensures documents == if response.Replied? && response.success then response.data else old(documents)
      ensures notice == if response.Failed? then Some(Notice("Connection Error", ErrorLevel)) else None
    {
      path := DocumentsPath;
      notice := None;
      match response {
        case Failed =>
          notice := Some(Notice("Connection Error", ErrorLevel));
        case Replied(success, docs) =>
          if success {
            documents := docs;
          }
      }
      loading := false;
    }

    /** `handleDeleteDocument(id)`: `DELETE /documents/:id`, with the outcome
        of that request. When it is not rejected, every document with that
        id leaves the list; when it is, the list is unchanged. */
    method DeleteDocument(id: string, response: Response<()>) returns (path: string, notice: Notice)
      requires Valid()
      modifies this`documents
      ensures Valid()
      ensures path == DocumentsPath + "/" + id
      ensures response.Failed? ==> documents == old(documents) && notice == Notice("Error", ErrorLevel)
      ensures response.Replied? ==>
        documents == RemoveById(old(documents), id) && notice == Notice("Moved to trash", InfoLevel)
    {
      path := DocumentsPath + "/" + id;
      if response.Failed? {
        return path, Notice("Error", ErrorLevel);
      }
      documents := RemoveById(documents, id);
      notice := Notice("Moved to trash", InfoLevel);
    }

    /** `handleLogout`: both stored entries are removed and the page goes
        home. */
    method Logout()
      modifies this`token, this`storedUser, this`route
      ensures token == None && storedUser == None && route == Some(HomeRoute)
    {
      token := None;
      storedUser := None;
      route := Some(HomeRoute);
    }

    /** The rendered page: the spinner while loading, then the empty state
        when there is nothing to list, otherwise the grid with its count. */
    function Render(): (v: View)
      reads this
      requires Valid()
      ensures v == Spinner <==> loading
      ensures v == Spinner ==> documents == []
      ensures v == EmptyState <==> !loading && |documents| == 0
      ensures v.Grid? ==> v.count == |documents| > 0 && v.cards == documents
    {
      if loading then Spinner
      else if |documents| == 0 then EmptyState
      else Grid(|documents|, documents)
    }
  }
}
