/** The `Transition` enumeration: how a visit was reached, by the codes of
    Firefox's `nsINavHistoryService`. */
module Transitions {
  import opened Results

  /** The width the report centres a transition name in: the longest name. */
  const NameWidth := 13

  datatype Transition =
    | Link          // followed a link, new top-level window
    | Typed         // typed into the URL bar, or picked from autocomplete or history
    | Bookmark      // followed a bookmark
    | Embed         // inner content loaded
    | RedirectPerm  // permanent redirect
    | RedirectTemp  // temporary redirect
    | Download      // a download
    | FramedLink    // followed a link, visit in a frame
    | Reload        // page reloaded
  {
    /** The enum value. */
    function Code(): (c: int)
      ensures 1 <= c <= 9
    {
      match this
      case Link => 1
      case Typed => 2
      case Bookmark => 3
      case Embed => 4
      case RedirectPerm => 5
      case RedirectTemp => 6
      case Download => 7
      case FramedLink => 8
      case Reload => 9
    }

    /** The enum member's name, `transition.name`. */
    function Name(): (s: string)
      ensures 1 <= |s| <= NameWidth
      ensures forall i :: 0 <= i < |s| ==> ('A' <= s[i] <= 'Z' || s[i] == '_')
    {
      match this
      case Link => "LINK"
      case Typed => "TYPED"
      case Bookmark => "BOOKMARK"
      case Embed => "EMBED"
      case RedirectPerm => "REDIRECT_PERM"
      case RedirectTemp => "REDIRECT_TEMP"
      case Download => "DOWNLOAD"
      case FramedLink => "FRAMED_LINK"
      case Reload => "RELOAD"
    }
  }

  /** `Transition(code)`: the member with that value; any other code is the
      `ValueError` the enum raises. */
  function FromCode(code: int): (r: Option<Transition>)
    ensures r.Some? ==> r.value.Code() == code
    ensures r.None? <==> !(1 <= code <= 9)
  {
    match code
    case 1 => Some(Link)
    case 2 => Some(Typed)
    case 3 => Some(Bookmark)
    case 4 => Some(Embed)
    case 5 => Some(RedirectPerm)
    case 6 => Some(RedirectTemp)
    case 7 => Some(Download)
    case 8 => Some(FramedLink)
    case 9 => Some(Reload)
    case _ => None
  }

  /** The member a printed name belongs to, if any. */
  function FromName(name: string): (r: Option<Transition>)
    ensures r.Some? ==> r.value.Name() == name
    ensures r.None? ==> forall t: Transition :: t.Name() != name
  {
    if name == "LINK" then Some(Link)
    else if name == "TYPED" then Some(Typed)
    else if name == "BOOKMARK" then Some(Bookmark)
    else if name == "EMBED" then Some(Embed)
    else if name == "REDIRECT_PERM" then Some(RedirectPerm)
    else if name == "REDIRECT_TEMP" then Some(RedirectTemp)
    else if name == "DOWNLOAD" then Some(Download)
    else if name == "FRAMED_LINK" then Some(FramedLink)
    else if name == "RELOAD" then Some(Reload)
    else None
  }

  /** Codes and members correspond one to one. */
  lemma CodeRoundTrip(t: Transition, code: int)
    ensures FromCode(t.Code()) == Some(t)
    ensures FromCode(code).Some? ==> FromCode(code).value.Code() == code
  {
  }

  /** Names identify members, so a printed name can be read back. */
  lemma NameRoundTrip(t: Transition)
    ensures FromName(t.Name()) == Some(t)
  {
  }

  /** The width 13 is attained, so no name is ever wider than its column and
      one fills it exactly. */
  lemma NameWidthIsTight()
    ensures |RedirectPerm.Name()| == NameWidth
  {
  }
}
