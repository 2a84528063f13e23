/** The client-side rules of the global documents page: role gating, the search
    filter, the admin guard on delete, and the colour of a status badge. */
module DocumentsPage {
  import opened Wrappers
  import opened Text

  /** What `/auth/me` told the page about the logged-in user. */
  datatype UserData = UserData(id: nat, username: string, roleName: string)

  /** `EDITOR_ROLES`. */
  const EDITOR_ROLES: seq<string> := ["admin", "editor"]

  /** `canCreateOrEdit`: a user is loaded and their role is an editor role. */
  function CanCreateOrEdit(user: Option<UserData>): (r: bool)
    ensures r <==> user.Some? && (user.value.roleName == "admin" || user.value.roleName == "editor")
  {
    if user.Some? then user.value.roleName in EDITOR_ROLES else false
  }

  /** `isAdmin`: a user is loaded and their role is exactly "admin". */
  function IsAdmin(user: Option<UserData>): (r: bool)
    ensures r <==> CanCreateOrEdit(user) && user.value.roleName != "editor"
  {
    user.Some? && user.value.roleName == "admin"
  }

  /** Whoever may delete may also create and edit; the converse fails for editors. */
  lemma AdminCanEdit(user: Option<UserData>)
    ensures IsAdmin(user) ==> CanCreateOrEdit(user)
    ensures user.Some? && user.value.roleName == "editor" ==> CanCreateOrEdit(user) && !IsAdmin(user)
  {
  }

  datatype Creator = Creator(username: string)

  datatype Document = Document(
    id: nat, title: string, slug: string, status: string, version: string, creator: Creator, updatedAt: string)

  /** The `filteredDocuments` predicate: the lower-cased term occurs in the
      lower-cased title, creator username or status. */
  function MatchesSearch(doc: Document, term: string): (r: bool)
    ensures r <==>
      || (exists i :: OccursAt(Lower(doc.title), Lower(term), i))
      || (exists i :: OccursAt(Lower(doc.creator.username), Lower(term), i))
      || (exists i :: OccursAt(Lower(doc.status), Lower(term), i))
  {
    var t := Lower(term);
    IncludesIsSubstring(Lower(doc.title), t);
    IncludesIsSubstring(Lower(doc.creator.username), t);
    IncludesIsSubstring(Lower(doc.status), t);
    Includes(Lower(doc.title), t) || Includes(Lower(doc.creator.username), t) || Includes(Lower(doc.status), t)
  }

  /** `documents.filter(...)`. */
  function FilterDocuments(docs: seq<Document>, term: string): (r: seq<Document>)
    ensures |r| <= |docs|
    ensures forall k :: 0 <= k < |r| ==> MatchesSearch(r[k], term)
  {
    if docs == [] then []
    else if MatchesSearch(docs[0], term) then [docs[0]] + FilterDocuments(docs[1..], term)
    else FilterDocuments(docs[1..], term)
  }

  /** A document is kept exactly when it matches. */
  lemma {:induction false} FilterKeepsExactlyMatches(docs: seq<Document>, term: string, d: Document)
    ensures d in FilterDocuments(docs, term) <==> d in docs && MatchesSearch(d, term)
  {
    if docs != [] {
      FilterKeepsExactlyMatches(docs[1..], term, d);
      assert docs == [docs[0]] + docs[1..];
    }
  }

  /** A matching document is kept as many times as it occurs; any other is dropped. */
  lemma {:induction false} FilterKeepsMultiplicity(docs: seq<Document>, term: string, d: Document)
    ensures multiset(FilterDocuments(docs, term))[d] == if MatchesSearch(d, term) then multiset(docs)[d] else 0
  {
    if docs != [] {
      FilterKeepsMultiplicity(docs[1..], term, d);
      assert docs == [docs[0]] + docs[1..];
    }
  }

  /** `sub` is `s` with some elements left out and the rest in their order. */
  ghost predicate IsSubsequence<T>(sub: seq<T>, s: seq<T>)
    decreases |s|
  {
    if sub == [] then true
    else if s == [] then false
    else if sub[0] == s[0] then IsSubsequence(sub[1..], s[1..])
    else IsSubsequence(sub, s[1..])
  }

  /** The filter keeps the documents' order. */
  lemma {:induction false} FilterIsSubsequence(docs: seq<Document>, term: string)
    ensures IsSubsequence(FilterDocuments(docs, term), docs)
  {
    if docs != [] {
      FilterIsSubsequence(docs[1..], term);
      var rest := FilterDocuments(docs[1..], term);
      if !MatchesSearch(docs[0], term) && rest != [] {
        // every kept document matches, so the head of `rest` is not `docs[0]`
        FilterKeepsExactlyMatches(docs[1..], term, rest[0]);
      }
    }
  }

  /** An empty search term keeps every document. */
  lemma {:induction false} EmptyTermKeepsAll(docs: seq<Document>)
    ensures FilterDocuments(docs, "") == docs
  {
    if docs != [] {
      EmptyTermKeepsAll(docs[1..]);
    }
  }

  /** What `handleDelete` ends in. */
  datatype DeleteEffect =
    | AccessDenied          // the warning dialog for a non-admin
    | Cancelled             // the confirmation was declined
    | RedirectToLogin       // no token in local storage
    | DeleteRequest(slug: string, token: string) // `DELETE /document/slug/<slug>`

  /** `handleDelete`, with the dialog's answer and the stored token as inputs. */
  function HandleDelete(user: Option<UserData>, slug: string, confirmed: bool, token: Option<string>): (r: DeleteEffect)
    ensures !IsAdmin(user) ==> r == AccessDenied
    ensures r.DeleteRequest? <==> IsAdmin(user) && confirmed && token.Some? && token.value != ""
    ensures r.DeleteRequest? ==> r == DeleteRequest(slug, token.value)
    ensures IsAdmin(user) && confirmed && (token.None? || token == Some("")) ==> r == RedirectToLogin
  {
    if !IsAdmin(user) then AccessDenied
    else if !confirmed then Cancelled
    else if token.None? || token.value == "" then RedirectToLogin
    else DeleteRequest(slug, token.value)
  }

  /** The badge colours. */
  datatype BadgeColor = Gray | Green | Yellow | Red

  /** The `StatusBadge` colour; `status || ""` makes a missing status the empty one. */
  function StatusColor(status: Option<string>): (c: BadgeColor)
    ensures c == Green <==> status == Some("PUBLISHED") || status == Some("approved")
    ensures c == Yellow <==> status == Some("DRAFT")
    ensures c == Red <==> status == Some("ARCHIVED")
  {
    var safeStatus := status.GetOr("");
    if safeStatus == "PUBLISHED" || safeStatus == "approved" then Green
    else if safeStatus == "DRAFT" then Yellow
    else if safeStatus == "ARCHIVED" then Red
    else Gray
  }

  /** The class string each colour is rendered with; each colour has its own
      background and text class. */
  function ColorClass(c: BadgeColor): (r: string)
    ensures c == Gray <==> r == "bg-gray-200 text-gray-800"
    ensures c == Green <==> r == "bg-green-100 text-green-800"
    ensures c == Yellow <==> r == "bg-yellow-100 text-yellow-800"
    ensures c == Red <==> r == "bg-red-100 text-red-800"
  {
    match c
    case Gray => "bg-gray-200 text-gray-800"
    case Green => "bg-green-100 text-green-800"
    case Yellow => "bg-yellow-100 text-yellow-800"
    case Red => "bg-red-100 text-red-800"
  }
}
