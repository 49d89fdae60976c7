/** The "Add a Spotify Friend" form: extracting a Spotify user id from a pasted
    profile URL (`https://open.spotify.com/user/<id>?si=...`) and the state
    changes of the form's change and submit handlers.  Parsing the URL itself
    is the browser's `URL` class; it enters the model as a function from the
    typed text to the URL's pathname, or `None` when the text is not a URL. */
module AddFriend {
  import opened Wrappers

  // ---------------------------------------------------------------------
  // Path segments
  // ---------------------------------------------------------------------

  /** `s.split(sep)`: the pieces of `s` between occurrences of `sep`, in order;
      there is always at least one piece, and none contains `sep`. */
  function Split(s: string, sep: char): (parts: seq<string>)
    ensures |parts| >= 1
    ensures forall i :: 0 <= i < |parts| ==> sep !in parts[i]
  {
    if s == [] then [[]]
    else
      var rest := Split(s[1..], sep);
      if s[0] == sep then [[]] + rest
      else [[s[0]] + rest[0]] + rest[1..]
  }

  /** `parts.join(sep)`: the pieces with `sep` between consecutive ones. */
  function JoinWith(parts: seq<string>, sep: char): (s: string)
    requires |parts| >= 1
    ensures |s| >= |parts| - 1
  {
    if |parts| == 1 then parts[0]
    else parts[0] + [sep] + JoinWith(parts[1..], sep)
  }

  /** Splitting loses nothing: joining the pieces back gives the original string. */
  lemma {:induction false} JoinSplit(s: string, sep: char)
    ensures JoinWith(Split(s, sep), sep) == s
  {
    if s != [] {
      var rest := Split(s[1..], sep);
      JoinSplit(s[1..], sep);
      if s[0] == sep {
        assert ([[]] + rest)[1..] == rest;
      } else if |rest| > 1 {
        var parts := Split(s, sep);
        assert parts[1..] == rest[1..];
        assert JoinWith(rest, sep) == rest[0] + [sep] + JoinWith(rest[1..], sep);
        assert s == [s[0]] + s[1..];
      } else {
        assert s == [s[0]] + s[1..];
      }
    }
  }

  /** A piece without a separator in front of a string joins the string's first piece. */
  lemma {:induction false} SplitPrefix(p: string, t: string, sep: char)
    requires sep !in p
    ensures Split(p + t, sep) == [p + Split(t, sep)[0]] + Split(t, sep)[1..]
  {
    if p != [] {
      assert (p + t)[0] == p[0] && (p + t)[1..] == p[1..] + t;
      SplitPrefix(p[1..], t, sep);
      assert [p[0]] + (p[1..] + Split(t, sep)[0]) == p + Split(t, sep)[0];
    } else {
      assert p + t == t;
      var parts := Split(t, sep);
      assert p + parts[0] == parts[0];
      assert parts == [parts[0]] + parts[1..];
    }
  }

  /** Joining pieces that contain no separator and splitting again gives the pieces back. */
  lemma {:induction false} SplitJoin(parts: seq<string>, sep: char)
    requires |parts| >= 1
    requires forall i :: 0 <= i < |parts| ==> sep !in parts[i]
    ensures Split(JoinWith(parts, sep), sep) == parts
  {
    if |parts| == 1 {
      SplitPrefix(parts[0], [], sep);
      assert Split([], sep) == [[]];
      assert parts[0] + [] == parts[0];
    } else {
      var rest := JoinWith(parts[1..], sep);
      SplitJoin(parts[1..], sep);
      assert parts[0] + [sep] + rest == parts[0] + ([sep] + rest);
      SplitPrefix(parts[0], [sep] + rest, sep);
      assert ([sep] + rest)[1..] == rest;
      assert Split([sep] + rest, sep) == [[]] + parts[1..];
      assert JoinWith(parts, sep) == parts[0] + ([sep] + rest);
      assert parts[0] + [] == parts[0];
      assert parts == [parts[0]] + parts[1..];
    }
  }

  /** `parts.indexOf(x)`: the position of the first piece equal to `x`, or -1. */
  function IndexOf(parts: seq<string>, x: string): (r: int)
    ensures -1 <= r < |parts|
    ensures r == -1 <==> x !in parts
    ensures r >= 0 ==> parts[r] == x && forall k :: 0 <= k < r ==> parts[k] != x
  {
    if parts == [] then -1
    else if parts[0] == x then 0
    else
      var r := IndexOf(parts[1..], x);
      if r < 0 then -1 else r + 1
  }

  // ---------------------------------------------------------------------
  // extractId
  // ---------------------------------------------------------------------

  /** The path segment that names a profile. */
  const UserSegment: string := "user"

  /** Position `i` holds the first `user` segment of `parts`. */
  predicate FirstUserAt(parts: seq<string>, i: int) {
    0 <= i < |parts| && parts[i] == UserSegment &&
    forall k :: 0 <= k < i ==> parts[k] != UserSegment
  }

  /** `extractId`, given the pathname of the parsed URL (`None` when the text is
      not a URL): the path segment right after the first segment `user`, or
      `None` when there is no `user` segment or it is the last one. */
  function ExtractId(pathname: Option<string>): (id: Option<string>)
    ensures pathname.None? ==> id.None?
    ensures id.Some? ==> '/' !in id.value
  {
    match pathname
    case None => None
    case Some(path) =>
      var parts := Split(path, '/');
      var idx := IndexOf(parts, UserSegment);
      if idx >= 0 && |parts| > idx + 1 then Some(parts[idx + 1]) else None
  }

  /** For a parsed URL, an id is found exactly when some `user` segment has a
      segment after it, and the id is the segment after the first `user`. */
  lemma ExtractIdSpec(path: string)
    ensures var parts := Split(path, '/');
            && (ExtractId(Some(path)).Some? <==> exists i :: 0 <= i < |parts| - 1 && parts[i] == UserSegment)
            && (ExtractId(Some(path)).Some? ==>
                  exists i :: FirstUserAt(parts, i) && i + 1 < |parts| && ExtractId(Some(path)).value == parts[i + 1])
  {
    var parts := Split(path, '/');
    var idx := IndexOf(parts, UserSegment);
    if idx >= 0 && |parts| > idx + 1 {
      assert FirstUserAt(parts, idx) && parts[idx] == UserSegment;
    } else {
      assert forall i :: 0 <= i < |parts| - 1 ==> parts[i] != UserSegment;
    }
  }

  /** When the first `user` segment is followed by another segment, that segment is the id. */
  lemma ExtractIdAfterFirstUser(path: string, i: nat)
    requires i + 1 < |Split(path, '/')|
    requires FirstUserAt(Split(path, '/'), i)
    ensures ExtractId(Some(path)) == Some(Split(path, '/')[i + 1])
  {
  }

  /** Without a `user` segment there is no id. */
  lemma ExtractIdNoUser(path: string)
    requires UserSegment !in Split(path, '/')
    ensures ExtractId(Some(path)) == None
  {
  }

  /** When the first `user` segment is the last segment there is no id. */
  lemma ExtractIdUserLast(path: string)
    requires Split(path, '/')[|Split(path, '/')| - 1] == UserSegment
    requires UserSegment !in Split(path, '/')[..|Split(path, '/')| - 1]
    ensures ExtractId(Some(path)) == None
  {
  }

  /** Only the first `user` counts: `/user/user/x` names the user `user`. */
  lemma ExtractIdFirstOccurrence()
    ensures ExtractId(Some("/user/user/x")) == Some("user")
  {
    var parts := ["", "user", "user", "x"];
    assert JoinWith(parts, '/') == "/user/user/x";
    SplitJoin(parts, '/');
  }

  /** A trailing slash after `user` yields the empty id (which the submit handler rejects). */
  lemma ExtractIdTrailingSlash()
    ensures ExtractId(Some("/user/")) == Some("")
  {
    var parts := ["", "user", ""];
    assert JoinWith(parts, '/') == "/user/";
    SplitJoin(parts, '/');
  }

  /** A profile pathname, as the browser reports it for
      `https://open.spotify.com/user/yvonnemongare?si=...` (the query is not part of it). */
  lemma ExtractIdProfile()
    ensures ExtractId(Some("/user/yvonnemongare")) == Some("yvonnemongare")
  {
    var parts := ["", "user", "yvonnemongare"];
    assert JoinWith(parts, '/') == "/user/yvonnemongare";
    SplitJoin(parts, '/');
  }

  // ---------------------------------------------------------------------
  // The form
  // ---------------------------------------------------------------------

  /** The error shown when no id can be read from the text. */
  const ParseError: string := "Could not parse a Spotify user ID from that URL."

  /** The submit gate `if (!friendId)`: a null or empty id is refused; any other
      id is the `friend_id` sent to the server. */
  function FriendIdToSend(pathname: Option<string>): (r: Option<string>)
    ensures r.None? <==> ExtractId(pathname).None? || ExtractId(pathname).value == ""
    ensures r.Some? ==> r == ExtractId(pathname) && r.value != "" && '/' !in r.value
  {
    match ExtractId(pathname)
    case None => None
    case Some(id) => if id == "" then None else Some(id)
  }

  /** Text that is not a URL never leads to a request. */
  lemma NoRequestWithoutUrl()
    ensures FriendIdToSend(None) == None
  {
  }

  /** A request needs a `user` segment followed by a non-empty segment. */
  lemma RequestNeedsUserSegment(path: string)
    requires FriendIdToSend(Some(path)).Some?
    ensures exists i :: 0 <= i < |Split(path, '/')| - 1 && Split(path, '/')[i] == UserSegment &&
                        Split(path, '/')[i + 1] == FriendIdToSend(Some(path)).value
  {
  }

  /** The state cells of the page: the typed text, the success message, the error
      message and the in-flight flag. */
  class AddFriendForm {
    var url: string
    var message: Option<string>
    var error: Option<string>
    var loading: bool

    /** The initial state: empty text, no message, no error, not loading. */
    constructor ()
      ensures url == "" && message == None && error == None && !loading
    {
      url := "";
      message := None;
      error := None;
      loading := false;
    }

    /** `onChange`: store the new text and clear both messages. */
    method OnChange(value: string)
      modifies this
      ensures url == value && message == None && error == None
      ensures loading == old(loading)
    {
      url := value;
      message := None;
      error := None;
    }

    /** `onSubmit` up to the request: clear both messages, extract the id from
        the text through `parse` (the browser's URL parser: trim, parse, take
        the pathname); on a null or empty id show the parse error and stop;
        otherwise set `loading` and return the `friend_id` to send. */
    method OnSubmit(parse: string -> Option<string>) returns (request: Option<string>)
      modifies this
      ensures request == FriendIdToSend(parse(old(url)))
      ensures url == old(url) && message == None
      ensures request.None? ==> error == Some(ParseError) && loading == old(loading)
      ensures request.Some? ==> error == None && loading
    {
      message := None;
      error := None;
      var friendId := ExtractId(parse(url));
      if friendId.None? || friendId.value == "" {
        error := Some(ParseError);
        return None;
      }
      loading := true;
      request := friendId;
    }
  }
}
