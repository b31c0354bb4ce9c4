/** Which animated background the single-page application shows for a
    route: a decision table over `location.pathname`. */
module BackgroundSelector {
  import opened JsStrings

  /** The five background components, named as the application names them. */
  datatype Backdrop =
    | PhyloExpansionBackground
    | DragonSphereBackground
    | OrbitalSimBackground
    | PhyloBackground
    | Background

  /** Pages of the ESPM 112L course and its posts. */
  predicate IsEspmPage(pathname: string) {
    Contains(pathname, "espm112l") || Contains(pathname, "_posts")
  }

  /** The three exact pages are tested first, in a fixed order; every other
      path gets the phylogeny for course pages and the default otherwise. */
  function SelectBackground(pathname: string): (b: Backdrop)
    ensures b == PhyloExpansionBackground <==> pathname == "/contact"
    ensures b == DragonSphereBackground <==> pathname == "/projects"
    ensures b == OrbitalSimBackground <==> pathname == "/about"
    ensures b == PhyloBackground <==>
      pathname !in {"/contact", "/projects", "/about"} && IsEspmPage(pathname)
    ensures b == Background <==>
      pathname !in {"/contact", "/projects", "/about"} && !IsEspmPage(pathname)
  {
    if pathname == "/contact" then PhyloExpansionBackground
    else if pathname == "/projects" then DragonSphereBackground
    else if pathname == "/about" then OrbitalSimBackground
    else if IsEspmPage(pathname) then PhyloBackground
    else Background
  }

  /** A word that starts with a character the prefix does not contain is
      found in `prefix + s` exactly when it is found in `s`. */
  lemma {:induction false} ContainsPastPrefix(prefix: string, s: string, w: string)
    requires w != [] && w[0] !in prefix
    ensures Contains(prefix + s, w) <==> Contains(s, w)
  {
    if prefix != [] {
      assert (prefix + s)[0] == prefix[0] != w[0];
      assert !StartsWith(prefix + s, w);
      assert (prefix + s)[1..] == prefix[1..] + s;
      ContainsPastPrefix(prefix[1..], s, w);
    } else {
      assert prefix + s == s;
    }
  }

  /** A post page `/posts/<slug>` gets the default background unless the slug
      itself mentions the course or `_posts`: the `/posts/` route never matches
      the `_posts` test on its own. */
  lemma PostPageBackground(slug: string)
    ensures SelectBackground("/posts/" + slug) ==
      (if Contains(slug, "espm112l") || Contains(slug, "_posts") then PhyloBackground else Background)
  {
    var p := "/posts/" + slug;
    assert p[1] == 'p' && p[2] == 'o';
    assert p != "/contact" && p != "/projects" && p != "/about";
    ContainsPastPrefix("/posts/", slug, "espm112l");
    ContainsPastPrefix("/posts/", slug, "_posts");
  }
}
