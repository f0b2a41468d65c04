/**
 * Which page a URL path shows: the last path segment, without a query,
 * matched case-insensitively against the page names.
 */
module Routing {
  import Text

  /** The keys of `PAGES`, in declaration order; the first is the default. */
  const Pages: seq<string> := ["Dashboard", "Upload", "Children", "Practice", "Progress", "AssignmentDetails",
                               "AssignmentsList", "Settings", "Profile", "SubscriptionTiers", "FindTutor"]

  /** `Object.keys(PAGES).find(page => page.toLowerCase() === part.toLowerCase())`; -1 when none. */
  function FindPage(pages: seq<string>, part: string): (i: int)
    ensures -1 <= i < |pages|
    ensures i == -1 <==> forall j :: 0 <= j < |pages| ==> Text.Lower(pages[j]) != Text.Lower(part)
    ensures i >= 0 ==> Text.Lower(pages[i]) == Text.Lower(part)
                       && forall j :: 0 <= j < i ==> Text.Lower(pages[j]) != Text.Lower(part)
  {
    if pages == [] then -1
    else if Text.Lower(pages[0]) == Text.Lower(part) then 0
    else
      var k := FindPage(pages[1..], part);
      if k == -1 then -1 else k + 1
  }

  /** `pageName || Object.keys(PAGES)[0]`. */
  function Resolve(part: string): (page: string)
    ensures page in Pages
  {
    var i := FindPage(Pages, part);
    if i >= 0 then Pages[i] else Pages[0]
  }

  /** The path segment that names the page. */
  function LastPart(url: string): (r: string)
    ensures '/' !in r && '?' !in r
  {
    var trimmed := if Text.EndsWith(url, "/") then url[..|url| - 1] else url;
    var last := Text.AfterLast(trimmed, '/');
    if '?' in last then Text.BeforeFirst(last, '?') else last
  }

  /** `_getCurrentPage(url)`. */
  function CurrentPage(url: string): (page: string)
    ensures page in Pages
  {
    Resolve(LastPart(url))
  }

  /** No two page names differ only in case. */
  lemma LowerNamesDistinct()
    ensures forall i, j :: 0 <= i < j < |Pages| ==> Text.Lower(Pages[i]) != Text.Lower(Pages[j])
  {
    forall i, j | 0 <= i < j < |Pages|
      ensures Text.Lower(Pages[i]) != Text.Lower(Pages[j])
    {
      if |Pages[i]| == |Pages[j]| {
        assert Text.Lower(Pages[i])[0] != Text.Lower(Pages[j])[0] || Text.Lower(Pages[i])[1] != Text.Lower(Pages[j])[1]
               || Text.Lower(Pages[i])[2] != Text.Lower(Pages[j])[2];
      }
    }
  }

  /** A page name in any letter case resolves to its canonical spelling. */
  lemma ResolveName(k: nat, part: string)
    requires k < |Pages| && Text.Lower(part) == Text.Lower(Pages[k])
    ensures Resolve(part) == Pages[k]
  {
    LowerNamesDistinct();
  }

  /** A segment that names no page resolves to the first page, "Dashboard". */
  lemma ResolveUnknown(part: string)
    requires forall k :: 0 <= k < |Pages| ==> Text.Lower(Pages[k]) != Text.Lower(part)
    ensures Resolve(part) == "Dashboard"
  {
  }

  lemma {:induction false} AfterLastOfSegment(prefix: string, seg: string)
    requires '/' !in seg
    ensures Text.AfterLast(prefix + "/" + seg, '/') == seg
    decreases |seg|
  {
    if seg == [] {
      assert prefix + "/" + seg == prefix + "/";
    } else {
      var init := seg[..|seg| - 1];
      assert prefix + "/" + seg == (prefix + "/" + init) + [seg[|seg| - 1]];
      assert (prefix + "/" + seg)[..|prefix + "/" + seg| - 1] == prefix + "/" + init;
      AfterLastOfSegment(prefix, init);
      assert init + [seg[|seg| - 1]] == seg;
    }
  }

  lemma {:induction false} BeforeFirstOfQuery(seg: string, query: string)
    requires '?' !in seg
    ensures Text.BeforeFirst(seg + "?" + query, '?') == seg
    decreases |seg|
  {
    if seg != [] {
      assert (seg + "?" + query)[1..] == seg[1..] + "?" + query;
      BeforeFirstOfQuery(seg[1..], query);
    }
  }

  /**
   * The page is named by the last segment, whatever comes before it, with
   * any query cut off; one trailing "/" is ignored.
   */
  lemma LastSegmentNamesPage(prefix: string, seg: string, query: string)
    requires '/' !in seg && '?' !in seg && '/' !in query && seg != []
    ensures LastPart(prefix + "/" + seg) == seg
    ensures LastPart(prefix + "/" + seg + "/") == seg
    ensures LastPart(prefix + "/" + seg + "?" + query) == seg
  {
    var url := prefix + "/" + seg;
    assert url[|url| - 1] == seg[|seg| - 1];
    assert !Text.EndsWith(url, "/") by {
      assert url[|url| - 1..] == [seg[|seg| - 1]];
    }
    AfterLastOfSegment(prefix, seg);
    var slashed := url + "/";
    assert Text.EndsWith(slashed, "/") by {
      assert slashed[|slashed| - 1..] == "/";
    }
    assert slashed[..|slashed| - 1] == url;
    var q := seg + "?" + query;
    assert '/' !in q;
    assert prefix + "/" + seg + "?" + query == prefix + "/" + q;
    assert q[|q| - 1] != '/';
    assert !Text.EndsWith(prefix + "/" + q, "/") by {
      var u := prefix + "/" + q;
      assert u[|u| - 1..] == [q[|q| - 1]];
    }
    AfterLastOfSegment(prefix, q);
    assert q[|seg|] == '?';
    BeforeFirstOfQuery(seg, query);
  }

  /** "/" and "" show the dashboard, and so does a path with two trailing slashes. */
  lemma RootIsDashboard(prefix: string)
    ensures CurrentPage("/") == "Dashboard"
    ensures CurrentPage("") == "Dashboard"
    ensures CurrentPage(prefix + "//") == "Dashboard"
  {
    assert "/"[..0] == "";
    var u := prefix + "//";
    assert Text.EndsWith(u, "/") by {
      assert u[|u| - 1..] == "/";
    }
    assert u[..|u| - 1] == prefix + "/" + "";
    AfterLastOfSegment(prefix, "");
    forall k | 0 <= k < |Pages|
      ensures Text.Lower(Pages[k]) != Text.Lower("")
    {
      assert |Text.Lower(Pages[k])| > 0;
    }
  }

  /** Page names are plain words. */
  lemma NamesArePlain(k: nat)
    requires k < |Pages|
    ensures Pages[k] != [] && '/' !in Pages[k] && '?' !in Pages[k]
    ensures '/' !in Text.Lower(Pages[k]) && '?' !in Text.Lower(Pages[k])
  {
  }

  /**
   * Every page is reached by a path ending in its name, in any letter case,
   * with or without one trailing "/" or a query.
   */
  lemma PageUrls(prefix: string, k: nat, query: string)
    requires k < |Pages| && '/' !in query
    ensures CurrentPage(prefix + "/" + Pages[k]) == Pages[k]
    ensures CurrentPage(prefix + "/" + Pages[k] + "/") == Pages[k]
    ensures CurrentPage(prefix + "/" + Text.Lower(Pages[k]) + "?" + query) == Pages[k]
  {
    var name := Pages[k];
    NamesArePlain(k);
    assert Resolve(name) == name by {
      ResolveName(k, name);
    }
    assert LastPart(prefix + "/" + name) == name && LastPart(prefix + "/" + name + "/") == name by {
      LastSegmentNamesPage(prefix, name, query);
    }
    var lower := Text.Lower(name);
    assert Resolve(lower) == name by {
      Text.LowerIdempotent(name);
      ResolveName(k, lower);
    }
    assert LastPart(prefix + "/" + lower + "?" + query) == lower by {
      LastSegmentNamesPage(prefix, lower, query);
    }
  }
}
