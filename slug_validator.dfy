/** The canonical-URL check of a review page (interfaces/SlugValidator.js): a request
    whose slug is not the review's current slug is answered with a permanent
    redirect to the canonical address. */
module SlugValidator {

  /** The part of a Node.js ServerResponse the check writes: the status line, the
      headers and whether the response has been ended. A status of 0 means no status
      has been written yet. */
  class Response {
    var status: int
    var headers: map<string, string>
    var ended: bool

    constructor ()
      ensures status == 0 && headers == map[] && !ended
    {
      status := 0;
      headers := map[];
      ended := false;
    }
  }

  const ReviewsPrefix := "/mlp/reviews/"

  /** The canonical address of a review: the prefix, the nid, a slash, the slug. */
  function CanonicalPath(nid: string, slug: string): (r: string)
    ensures |r| == |ReviewsPrefix| + |nid| + 1 + |slug|
    ensures r[..|ReviewsPrefix|] == ReviewsPrefix
    ensures r[|ReviewsPrefix| + |nid|] == '/' && r[|r| - |slug|..] == slug
  {
    ReviewsPrefix + nid + "/" + slug
  }

  predicate NoSlash(s: string) {
    forall i :: 0 <= i < |s| ==> s[i] != '/'
  }

  /** For nids without a slash the address determines the nid and the slug, so the
      redirect always names the review it came from. */
  lemma CanonicalPathInjective(nid1: string, slug1: string, nid2: string, slug2: string)
    requires NoSlash(nid1) && NoSlash(nid2)
    requires CanonicalPath(nid1, slug1) == CanonicalPath(nid2, slug2)
    ensures nid1 == nid2 && slug1 == slug2
  {
    var p := |ReviewsPrefix|;
    var r, t1, t2 := CanonicalPath(nid1, slug1), nid1 + "/" + slug1, nid2 + "/" + slug2;
    assert r == ReviewsPrefix + t1 && r == ReviewsPrefix + t2;
    assert t1 == r[p..] && t2 == r[p..];
    SplitAtFirstSlash(nid1, slug1, nid2, slug2);
  }

  /** A slash-free head ends at the first slash, so the split is unique. */
  lemma SplitAtFirstSlash(a: string, x: string, b: string, y: string)
    requires NoSlash(a) && NoSlash(b)
    requires a + "/" + x == b + "/" + y
    ensures a == b && x == y
  {
    var t := a + "/" + x;
    assert forall k :: 0 <= k < |a| ==> t[k] == a[k];
    assert forall k :: 0 <= k < |b| ==> t[k] == b[k];
    assert t[|a|] == '/' && t[|b|] == '/';
    assert a == t[..|a|] && b == t[..|b|];
    assert x == t[|a| + 1..] && y == t[|b| + 1..];
  }

  /** validateAndRedirect: matching slugs leave the response untouched; otherwise
      status 301 with the canonical Location is written and the response ended. */
  method ValidateAndRedirect(nid: string, actualSlug: string, expectedSlug: string, res: Response)
    modifies res
    ensures actualSlug == expectedSlug ==> unchanged(res)
    ensures actualSlug != expectedSlug ==>
              && res.status == 301
              && res.headers == old(res.headers)["Location" := CanonicalPath(nid, expectedSlug)]
              && res.ended
  {
    if actualSlug != expectedSlug {
      res.status := 301;
      res.headers := res.headers["Location" := CanonicalPath(nid, expectedSlug)];
      res.ended := true;
    }
  }
}
