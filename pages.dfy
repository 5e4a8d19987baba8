/**
 * The HTML page handlers. A logged-in user saves, reads, lists and deletes
 * their own pages under `/:username/:page`; anyone may render a page as
 * HTML. A page name is unique across all users (its `uniqueIndex`), while
 * the handlers always look a page up by name AND owner.
 */
module Pages {
  import opened Models
  import opened Store
  import Seqs

  /** The page called `name` owned by `uid` (`name = ? AND user_id = ?`). */
  function IndexOfPage(pages: seq<HtmlPage>, name: string, uid: nat): (k: Option<nat>)
    ensures k.Some? ==> k.value < |pages| && pages[k.value].name == name && pages[k.value].userId == uid
    ensures k.None? <==> forall i :: 0 <= i < |pages| ==> !(pages[i].name == name && pages[i].userId == uid)
  {
    if pages == [] then None
    else if pages[0].name == name && pages[0].userId == uid then Some(0)
    else match IndexOfPage(pages[1..], name, uid)
      case None => None
      case Some(k) => Some(k + 1)
  }

  /** The page called `name`, whoever owns it: what the unique index on `name` checks. */
  function IndexOfName(pages: seq<HtmlPage>, name: string): (k: Option<nat>)
    ensures k.Some? ==> k.value < |pages| && pages[k.value].name == name
    ensures k.None? <==> forall i :: 0 <= i < |pages| ==> pages[i].name != name
  {
    if pages == [] then None
    else if pages[0].name == name then Some(0)
    else match IndexOfName(pages[1..], name)
      case None => None
      case Some(k) => Some(k + 1)
  }

  /** The first account with this username (`username = ?`). */
  function FindUserByName(users: seq<User>, name: string): (r: Option<User>)
    ensures r.Some? ==> r.value in users && r.value.username == name
    ensures r.None? <==> forall i :: 0 <= i < |users| ==> users[i].username != name
  {
    if users == [] then None
    else if users[0].username == name then Some(users[0])
    else FindUserByName(users[1..], name)
  }

  /** With unique usernames, looking an account up by its own username finds that very row. */
  lemma {:induction false} UserLookup(users: seq<User>, k: nat)
    requires UsersValid(users) && k < |users|
    ensures FindUserByName(users, users[k].username) == Some(users[k])
  {
    if k > 0 {
      assert users[0].username != users[k].username;
      assert users[1..][k - 1] == users[k];
      UserLookup(users[1..], k - 1);
    }
  }

  /** With unique names, a page is found by its own name and owner. */
  lemma {:induction false} PageLookup(pages: seq<HtmlPage>, next: nat, k: nat)
    requires PagesValid(pages, next) && k < |pages|
    ensures IndexOfPage(pages, pages[k].name, pages[k].userId) == Some(k)
  {
    var r := IndexOfPage(pages, pages[k].name, pages[k].userId);
    assert r.Some? by {
      assert pages[k].name == pages[k].name && pages[k].userId == pages[k].userId;
    }
  }

  /** The owner check shared by save, read and delete: a session, and the URL names the session's user. */
  function Authorize(userId: Option<nat>, username: Option<string>, urlUsername: string, pageName: string)
    : (r: Response<nat>)
    ensures r.Ok? <==> userId.Some? && username.Some? && urlUsername == username.value && pageName != ""
    ensures r.Ok? ==> r.value == userId.value
    ensures r == Unauthorized <==> userId.None? || username.None?
    ensures r == Forbidden <==> userId.Some? && username.Some? && urlUsername != username.value
    ensures r == BadRequest <==> userId.Some? && username.Some? && urlUsername == username.value && pageName == ""
  {
    if userId.None? || username.None? then Unauthorized
    else if urlUsername != username.value then Forbidden
    else if pageName == "" then BadRequest
    else Ok(userId.value)
  }

  /** The same refusal, as the answer of a handler with another result type. */
  function Refuse<T>(a: Response<nat>): (r: Response<T>)
    requires !a.Ok?
    ensures !r.Ok?
    ensures r.BadRequest? == a.BadRequest? && r.Unauthorized? == a.Unauthorized? && r.Forbidden? == a.Forbidden?
    ensures r.NotFound? == a.NotFound? && r.Conflict? == a.Conflict? && r.InternalError? == a.InternalError?
  {
    match a
    case BadRequest => BadRequest
    case Unauthorized => Unauthorized
    case Forbidden => Forbidden
    case NotFound => NotFound
    case Conflict => Conflict
    case InternalError => InternalError
  }

  /** GetHTMLPage: the caller's own page with this name, content included. */
  function GetHTMLPage(userId: Option<nat>, username: Option<string>, urlUsername: string, pageName: string,
                       pages: seq<HtmlPage>): (r: Response<HtmlPage>)
    ensures Authorize(userId, username, urlUsername, pageName).Ok? <==> r.Ok? || r == NotFound
    ensures !Authorize(userId, username, urlUsername, pageName).Ok? ==>
              r == Refuse(Authorize(userId, username, urlUsername, pageName))
    ensures r.Ok? ==> r.value in pages && r.value.name == pageName && r.value.userId == userId.value
    ensures r == NotFound ==> forall p :: p in pages ==> !(p.name == pageName && p.userId == userId.value)
  {
    var auth := Authorize(userId, username, urlUsername, pageName);
    if !auth.Ok? then Refuse(auth)
    else match IndexOfPage(pages, pageName, auth.value)
      case None => NotFound
      case Some(k) => Ok(pages[k])
  }

  /**
   * RenderHTMLPage: public. Both names are required; the username must belong
   * to an account and the page to that account; the answer is the page's HTML.
   */
  function RenderHTMLPage(urlUsername: string, pageName: string, users: seq<User>, pages: seq<HtmlPage>)
    : (r: Response<string>)
    ensures r == BadRequest <==> urlUsername == "" || pageName == ""
    ensures r.Ok? || r == BadRequest || r == NotFound
    ensures urlUsername != "" && pageName != "" && FindUserByName(users, urlUsername).None? ==> r == NotFound
    ensures r.Ok? <==> urlUsername != "" && pageName != "" && FindUserByName(users, urlUsername).Some?
                       && IndexOfPage(pages, pageName, FindUserByName(users, urlUsername).value.id).Some?
    ensures r.Ok? ==> exists p :: p in pages && p.name == pageName
                                 && p.userId == FindUserByName(users, urlUsername).value.id && p.content == r.value
  {
    if pageName == "" || urlUsername == "" then BadRequest
    else match FindUserByName(users, urlUsername)
      case None => NotFound
      case Some(user) =>
        match IndexOfPage(pages, pageName, user.id)
        case None => NotFound
        case Some(k) =>
          assert pages[k] in pages;
          Ok(pages[k].content)
  }

  /** The pages owned by `uid`, in store order (`user_id = ?`). */
  function PagesOf(pages: seq<HtmlPage>, uid: nat): (r: seq<HtmlPage>)
    ensures forall p :: p in r <==> p in pages && p.userId == uid
    ensures |r| <= |pages|
  {
    if pages == [] then []
    else
      var last := pages[|pages| - 1];
      assert pages == pages[..|pages| - 1] + [last];
      PagesOf(pages[..|pages| - 1], uid) + if last.userId == uid then [last] else []
  }

  /** The columns ListHTMLPages selects: everything but the content. */
  function Summary(p: HtmlPage): HtmlPage {
    p.(content := "")
  }

  /** Two pages list alike exactly when they agree on every selected column. */
  lemma SummaryEqual(p: HtmlPage, q: HtmlPage)
    ensures Summary(p) == Summary(q) <==> p.id == q.id && p.name == q.name && p.userId == q.userId
  {
  }

  /** ListHTMLPages: the caller's pages without their content. */
  function ListHTMLPages(userId: Option<nat>, pages: seq<HtmlPage>): (r: Response<seq<HtmlPage>>)
    ensures r.Ok? <==> userId.Some?
    ensures !r.Ok? ==> r == Unauthorized
    ensures r.Ok? ==> |r.value| == |PagesOf(pages, userId.value)|
    ensures r.Ok? ==> forall i :: 0 <= i < |r.value| ==>
                        && r.value[i].content == ""
                        && r.value[i] == PagesOf(pages, userId.value)[i].(content := "")
    ensures r.Ok? ==> forall s :: s in r.value ==> exists p :: p in pages && p.userId == userId.value && s == Summary(p)
  {
    if userId.None? then Unauthorized
    else
      var own := PagesOf(pages, userId.value);
      var r := seq(|own|, i requires 0 <= i < |own| => Summary(own[i]));
      assert forall s :: s in r ==> exists i :: 0 <= i < |own| && s == Summary(own[i]);
      Ok(r)
  }

  /** Every page the listing shows can be opened by name, and opens as the full page with the same key. */
  lemma ListedPagesOpen(uid: nat, username: string, pages: seq<HtmlPage>, next: nat, s: HtmlPage)
    requires PagesValid(pages, next)
    requires ListHTMLPages(Some(uid), pages).Ok? && s in ListHTMLPages(Some(uid), pages).value && s.name != ""
    ensures var g := GetHTMLPage(Some(uid), Some(username), username, s.name, pages);
            g.Ok? && g.value.id == s.id && Summary(g.value) == s
  {
    var p :| p in pages && p.userId == uid && s == Summary(p);
    var k :| 0 <= k < |pages| && pages[k] == p;
    PageLookup(pages, next, k);
  }

  /** Adding a page with the next key and an unused name keeps keys and names unique. */
  lemma AppendPageValid(pages: seq<HtmlPage>, next: nat, p: HtmlPage)
    requires PagesValid(pages, next) && p.id == next
    requires forall i :: 0 <= i < |pages| ==> pages[i].name != p.name
    ensures PagesValid(pages + [p], next + 1)
  {
    var r := pages + [p];
    forall i, j | 0 <= i < j < |r| ensures r[i].id != r[j].id && r[i].name != r[j].name {
      if j == |pages| {
        assert r[i] == pages[i];
      }
    }
  }

  /** Replacing a page's content keeps keys and names unique. */
  lemma ReplaceContentValid(pages: seq<HtmlPage>, next: nat, k: nat, content: string)
    requires PagesValid(pages, next) && k < |pages|
    ensures PagesValid(pages[k := pages[k].(content := content)], next)
  {
    var r := pages[k := pages[k].(content := content)];
    forall i, j | 0 <= i < j < |r| ensures r[i].id != r[j].id && r[i].name != r[j].name {
      assert pages[i].id != pages[j].id && pages[i].name != pages[j].name;
    }
  }

  /** Removing a page keeps keys and names unique. */
  lemma RemovePageValid(pages: seq<HtmlPage>, next: nat, k: nat)
    requires PagesValid(pages, next) && k < |pages|
    ensures PagesValid(Seqs.RemoveAt(pages, k), next)
    ensures forall p :: p in Seqs.RemoveAt(pages, k) <==> p in pages && p.name != pages[k].name
  {
    var r := Seqs.RemoveAt(pages, k);
    forall i, j | 0 <= i < j < |r| ensures r[i].id != r[j].id && r[i].name != r[j].name {
      assert r[i] == pages[if i < k then i else i + 1];
      assert r[j] == pages[if j < k then j else j + 1];
    }
    forall p ensures p in r <==> p in pages && p.name != pages[k].name {
      Seqs.RemoveAtIndex(pages, k, p);
      if p in pages && p.name != pages[k].name {
        var i :| 0 <= i < |pages| && pages[i] == p;
        assert i != k;
      }
      if p in r {
        var i :| 0 <= i < |pages| && i != k && pages[i] == p;
        assert pages[if i < k then i else k].name != pages[if i < k then k else i].name;
      }
    }
  }

  /**
   * SaveHTMLPage: creates the caller's page or replaces its content. Creating
   * a page under a name another user already holds violates the unique index
   * and fails with no change. After a save, reading the page back gives the
   * saved content, and so does rendering it when the URL names the caller's
   * account.
   */
  method SaveHTMLPage(db: Db, userId: Option<nat>, username: Option<string>, urlUsername: string,
                      pageName: string, content: string) returns (r: Response<nat>)
    requires db.Valid()
    modifies db`pages, db`nextPageId
    ensures db.Valid()
    ensures !Authorize(userId, username, urlUsername, pageName).Ok? ==> r == Authorize(userId, username, urlUsername, pageName)
    ensures r == InternalError <==> Authorize(userId, username, urlUsername, pageName).Ok?
                                    && IndexOfPage(old(db.pages), pageName, userId.value).None?
                                    && IndexOfName(old(db.pages), pageName).Some?
    ensures r.Ok? || r == InternalError || r == Authorize(userId, username, urlUsername, pageName)
    ensures !r.Ok? ==> db.pages == old(db.pages) && db.nextPageId == old(db.nextPageId)
    ensures r.Ok? && old(IndexOfPage(db.pages, pageName, userId.value)).Some? ==>
      var k := old(IndexOfPage(db.pages, pageName, userId.value)).value;
      && r.value == old(db.pages)[k].id
      && db.pages == old(db.pages)[k := old(db.pages)[k].(content := content)]
      && db.nextPageId == old(db.nextPageId)
    ensures r.Ok? && old(IndexOfPage(db.pages, pageName, userId.value)).None? ==>
      && r.value == old(db.nextPageId)
      && db.pages == old(db.pages) + [HtmlPage(old(db.nextPageId), pageName, content, userId.value)]
      && db.nextPageId == old(db.nextPageId) + 1
    ensures r.Ok? ==> GetHTMLPage(userId, username, urlUsername, pageName, db.pages)
                      == Ok(HtmlPage(r.value, pageName, content, userId.value))
    ensures r.Ok? && urlUsername != "" && FindUserByName(db.users, urlUsername) == Some(User(userId.value, urlUsername)) ==>
      RenderHTMLPage(urlUsername, pageName, db.users, db.pages) == Ok(content)
  {
    var auth := Authorize(userId, username, urlUsername, pageName);
    if !auth.Ok? {
      return auth;
    }
    var uid := auth.value;
    var k := IndexOfPage(db.pages, pageName, uid);
    if k.None? {
      if IndexOfName(db.pages, pageName).Some? {
        return InternalError;
      }
      var page := HtmlPage(db.nextPageId, pageName, content, uid);
      AppendPageValid(db.pages, db.nextPageId, page);
      db.pages := db.pages + [page];
      db.nextPageId := db.nextPageId + 1;
      PageLookup(db.pages, db.nextPageId, |db.pages| - 1);
      return Ok(page.id);
    }
    ReplaceContentValid(db.pages, db.nextPageId, k.value, content);
    var page := db.pages[k.value].(content := content);
    db.pages := db.pages[k.value := page];
    PageLookup(db.pages, db.nextPageId, k.value);
    assert IndexOfPage(db.pages, pageName, uid) == Some(k.value);
    assert page == HtmlPage(page.id, pageName, content, uid);
    return Ok(page.id);
  }

  /** DeleteHTMLPage: removes the caller's page with this name; no other page changes. */
  method DeleteHTMLPage(db: Db, userId: Option<nat>, username: Option<string>, urlUsername: string,
                        pageName: string) returns (r: Response<()>)
    requires db.Valid()
    modifies db`pages
    ensures db.Valid()
    ensures !Authorize(userId, username, urlUsername, pageName).Ok? ==>
              r == Refuse(Authorize(userId, username, urlUsername, pageName))
    ensures r.Ok? <==> Authorize(userId, username, urlUsername, pageName).Ok?
                       && IndexOfPage(old(db.pages), pageName, userId.value).Some?
    ensures r == NotFound <==> Authorize(userId, username, urlUsername, pageName).Ok?
                               && IndexOfPage(old(db.pages), pageName, userId.value).None?
    ensures !r.Ok? ==> db.pages == old(db.pages)
    ensures r.Ok? ==>
      && |db.pages| == |old(db.pages)| - 1
      && (forall p :: p in db.pages <==> p in old(db.pages) && p.name != pageName)
      && GetHTMLPage(userId, username, urlUsername, pageName, db.pages) == NotFound
  {
    var auth := Authorize(userId, username, urlUsername, pageName);
    if !auth.Ok? {
      return Refuse(auth);
    }
    var k := IndexOfPage(db.pages, pageName, auth.value);
    if k.None? {
      return NotFound;
    }
    RemovePageValid(db.pages, db.nextPageId, k.value);
    db.pages := Seqs.RemoveAt(db.pages, k.value);
    return Ok(());
  }
}
