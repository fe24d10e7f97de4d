/** The site header's navigation (client/src/components/header.tsx): which link is
    highlighted at the current location. */
module Header {
  import opened JsBuiltins

  /** The hrefs of the three navigation links: Reviews, About, Submit Review. */
  const NavLinks: seq<string> := ["/", "/about", "/submit"]

  /** isActive: the home link only at exactly "/", every other link wherever the
      location starts with its path. */
  function IsActive(location: string, path: string): (r: bool)
    ensures path == "/" ==> (r <==> location == "/")
    ensures path != "/" ==> (r <==> |path| <= |location| && location[..|path|] == path)
  {
    if path == "/" && location == "/" then true
    else if path != "/" && StartsWith(location, path) then true
    else false
  }

  /** The match is on characters, not path segments: a link other than "/" is
      highlighted wherever the location continues its path with anything at all,
      so "/about" is highlighted at "/aboutx" as at "/about/team". */
  lemma PrefixMatchIsNotSegmentAware(path: string, rest: string)
    requires path != "/"
    ensures IsActive(path + rest, path)
  {
    assert (path + rest)[..|path|] == path;
  }

  /** The home link is highlighted nowhere but at "/", whatever follows the slash. */
  lemma RootIsExact(rest: string)
    requires rest != []
    ensures !IsActive("/" + rest, NavLinks[0])
  {
    assert |"/" + rest| > 1;
  }

  /** Wherever the visitor is, at most one navigation link is highlighted. */
  lemma AtMostOneLinkActive(location: string)
    ensures forall i, j :: 0 <= i < j < |NavLinks| ==>
              !(IsActive(location, NavLinks[i]) && IsActive(location, NavLinks[j]))
  {
    assert IsActive(location, "/about") ==> |location| > 1 && location[1] == 'a';
    assert IsActive(location, "/submit") ==> |location| > 1 && location[1] == 's';
  }
}
