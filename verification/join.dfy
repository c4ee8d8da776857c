/**
 Joining a session from the join page: the typed code or link is reduced to a
 session id, the id is checked with the sessions API, the user is added to the
 session, and only then does the page navigate to the editor.
 */
module JoinSession {
  import opened Values
  import opened Text

  /**
   The session id in a typed code or link: the trimmed input, or, when it holds a
   `/`, the piece after its last `/`.
   */
  function ExtractSessionId(sessionCode: string): (id: string)
    ensures '/' !in id
    ensures var t := Trim(sessionCode);
      && |id| <= |t|
      && id == t[|t| - |id|..]
      && ('/' !in t ==> id == t)
      && ('/' in t ==> |id| < |t| && t[|t| - |id| - 1] == '/')
  {
    var t := Trim(sessionCode);
    if '/' in t then LastPiece(t, '/') else t
  }

  /** The `includes("/")` test is redundant: a string without `/` is its own last piece. */
  lemma ExtractIsLastPiece(sessionCode: string)
    ensures ExtractSessionId(sessionCode) == LastPiece(Trim(sessionCode), '/')
  {
  }

  /** Blank input and links that end in `/` both give the empty id. */
  lemma EmptyIdCases(sessionCode: string)
    ensures AllWhitespace(sessionCode) ==> ExtractSessionId(sessionCode) == []
    ensures var t := Trim(sessionCode);
      |t| > 0 && t[|t| - 1] == '/' ==> ExtractSessionId(sessionCode) == []
  {
  }

  /** Reply of the session-existence check; axios rejects statuses outside 2xx, which is `LookupThrew`. */
  datatype Lookup = LookupThrew | LookupReturned(status: int, hasData: bool)

  /** A reply axios can hand back: a status outside 2xx arrives as `LookupThrew`, never as `LookupReturned`. */
  predicate AxiosLookup(lookup: Lookup) {
    lookup.LookupReturned? ==> 200 <= lookup.status <= 299
  }

  /** Reply of the join request. */
  datatype JoinReply = JoinThrew | JoinOk

  /** The requests the page sends, in order. */
  datatype Request = GetSession(id: string) | PostJoin(id: string)

  /** The page after the handler has finished. */
  datatype JoinView = JoinView(error: string, loading: bool, requests: seq<Request>, navigatedTo: Option<string>)

  const InvalidCodeError := "Please enter a valid session code or link."
  const NotFoundError := "Session not found. Please check the code."
  const ServerError := "Session not found or server error."

  /** The path of the collaborative editor for a session. */
  function EditorPath(id: string): string {
    "/editorvs/" + id
  }

  /** A successful existence check: status 200 with data. */
  predicate Found(lookup: Lookup) {
    lookup.LookupReturned? && lookup.status == 200 && lookup.hasData
  }

  /**
   The join handler once the id has been extracted. `lookup` and `join` are the
   replies the two requests would get; a reply the handler never asks for plays
   no part. The contract holds for any `lookup`; the replies axios can actually
   give are those satisfying `AxiosLookup`.
   */
  function JoinWithId(id: string, lookup: Lookup, join: JoinReply): (v: JoinView)
    // loading is cleared on every path
    ensures !v.loading
    // an empty id is rejected before any request
    ensures id == [] ==> v.requests == [] && v.error == InvalidCodeError
    // otherwise the id is looked up, and joined only when found
    ensures id != [] ==> v.requests == [GetSession(id)] + (if Found(lookup) then [PostJoin(id)] else [])
    // navigation happens exactly when the session was found and joined
    ensures v.navigatedTo.Some? <==> id != [] && Found(lookup) && join == JoinOk
    ensures v.navigatedTo.Some? ==> v.navigatedTo.value == EditorPath(id) && v.error == ""
    // the two failure messages
    ensures id != [] && lookup.LookupReturned? && !Found(lookup) ==> v.error == NotFoundError
    ensures id != [] && (lookup.LookupThrew? || (Found(lookup) && join.JoinThrew?)) ==> v.error == ServerError
  {
    if id == [] then
      JoinView(InvalidCodeError, false, [], None)
    else
      match lookup
      case LookupThrew => JoinView(ServerError, false, [GetSession(id)], None)
      case LookupReturned(status, hasData) =>
        if status == 200 && hasData then
          match join
          case JoinThrew => JoinView(ServerError, false, [GetSession(id), PostJoin(id)], None)
          case JoinOk => JoinView("", false, [GetSession(id), PostJoin(id)], Some(EditorPath(id)))
        else
          JoinView(NotFoundError, false, [GetSession(id)], None)
  }

  /** `handleJoinSession`: extract the id from the typed text, then run the requests. */
  function HandleJoinSession(sessionCode: string, lookup: Lookup, join: JoinReply): (v: JoinView)
    ensures !v.loading
    ensures AllWhitespace(sessionCode) ==> v.requests == [] && v.error == InvalidCodeError
    ensures v.navigatedTo.Some? ==> Found(lookup) && join == JoinOk
  {
    JoinWithId(ExtractSessionId(sessionCode), lookup, join)
  }

  /**
   The editor path names the session: its last `/`-piece is the id again, for
   every id `ExtractSessionId` can produce.
   */
  lemma NavigationTargetIsSessionPath(id: string)
    requires '/' !in id
    ensures LastPiece(EditorPath(id), '/') == id
  {
    var parts := ["", "editorvs", id];
    assert Join(parts, '/') == EditorPath(id) by {
      assert Join(parts[..2], '/') == "/editorvs";
    }
    SplitJoin(parts, '/');
  }

  /**
   With replies axios can give, "Session not found" means a 2xx answer other than
   200 with data; a 404 or a 500 surfaces as the server-error message instead.
   */
  lemma NotFoundOnlyForSuccessStatus(id: string, lookup: Lookup, join: JoinReply)
    requires AxiosLookup(lookup)
    ensures JoinWithId(id, lookup, join).error == NotFoundError
      <==> id != [] && lookup.LookupReturned? && 200 <= lookup.status <= 299 && !Found(lookup)
  {
  }
}
