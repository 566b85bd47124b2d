/** The post-processing of the two tools in WorkFlow/Tools.py. The search
    library's results and the article library's parsed text are inputs; an
    exception either library raises is an `Outcome.Raised`. */
module Tools {
  import opened Wrappers
  import opened Text

  // ---------------------------------------------------------------- search

  /** One result of the search library; `href` is `result.get("href")`. */
  datatype SearchHit = SearchHit(href: Option<string>)

  /** The comprehension's filter: `result.get("href")` is truthy. */
  predicate HasHref(hit: SearchHit) {
    hit.href.Some? && hit.href.value != ""
  }

  /** `[result["href"] for result in results if result.get("href")]` */
  function Hrefs(hits: seq<SearchHit>): (urls: seq<string>)
    ensures |urls| <= |hits|
    ensures forall i :: 0 <= i < |urls| ==> urls[i] != ""
    ensures urls == [] <==> forall i :: 0 <= i < |hits| ==> !HasHref(hits[i])
  {
    if hits == [] then []
    else
      var rest := Hrefs(hits[1..]);
      assert forall i :: 1 <= i < |hits| ==> hits[1..][i - 1] == hits[i];
      (if HasHref(hits[0]) then [hits[0].href.value] else []) + rest
  }

  /** The filter keeps the order of the results: filtering a concatenation
      concatenates the filtered parts. */
  lemma {:induction false} HrefsAppend(a: seq<SearchHit>, b: seq<SearchHit>)
    ensures Hrefs(a + b) == Hrefs(a) + Hrefs(b)
  {
    if a == [] {
      assert a + b == b;
    } else {
      assert (a + b)[1..] == a[1..] + b;
      HrefsAppend(a[1..], b);
    }
  }

  /** A url is listed exactly when some result carries it as a non-empty href. */
  lemma {:induction false} HrefsMember(hits: seq<SearchHit>, u: string)
    ensures u in Hrefs(hits) <==> exists i :: 0 <= i < |hits| && HasHref(hits[i]) && hits[i].href.value == u
  {
    if hits != [] {
      HrefsMember(hits[1..], u);
      if u in Hrefs(hits[1..]) {
        var i :| 0 <= i < |hits[1..]| && HasHref(hits[1..][i]) && hits[1..][i].href.value == u;
        assert hits[i + 1] == hits[1..][i];
      }
      forall i | 1 <= i < |hits| && HasHref(hits[i]) && hits[i].href.value == u
        ensures u in Hrefs(hits[1..])
      {
        assert hits[1..][i - 1] == hits[i];
      }
    }
  }

  const NoSearchResults := "No valid search results found."

  /** `duckduckgo_search`: the hrefs, a one-element notice when there are
      none, or a one-element error message when the search raised. The list
      is never empty. */
  function DuckDuckGoSearch(search: Outcome<seq<SearchHit>>): (urls: seq<string>)
    ensures |urls| >= 1
    ensures search.Raised? ==> urls == ["Error performing search: " + search.message]
    ensures search.Returned? ==> urls == (if Hrefs(search.value) == [] then [NoSearchResults] else Hrefs(search.value))
  {
    match search
    case Raised(message) => ["Error performing search: " + message]
    case Returned(results) =>
      var urls := Hrefs(results);
      if urls != [] then urls else [NoSearchResults]
  }

  /** The tool asks the library for at most eight results; when the library
      keeps to that, so does the tool. */
  lemma SearchAtMostEight(results: seq<SearchHit>)
    requires |results| <= 8
    ensures |DuckDuckGoSearch(Returned(results))| <= 8
  {
  }

  // ------------------------------------------------------------------- url

  /** What the tool reads of `urlparse(url)`. */
  datatype UrlParts = UrlParts(scheme: string, netloc: string)

  predicate IsSchemeChar(c: char) {
    IsLetter(c) || IsDigit(c) || c == '+' || c == '-' || c == '.'
  }

  predicate AllSchemeChars(s: string) {
    forall i :: 0 <= i < |s| ==> IsSchemeChar(s[i])
  }

  /** `s.find(c)`, with `|s|` standing for "not found". */
  function Find(s: string, c: char): (i: nat)
    ensures i <= |s| && (i < |s| ==> s[i] == c)
  {
    if s == [] then 0 else if s[0] == c then 0 else 1 + Find(s[1..], c)
  }

  lemma {:induction false} FindAt(s: string, c: char, i: nat)
    requires i < |s| && s[i] == c
    requires forall k :: 0 <= k < i ==> s[k] != c
    ensures Find(s, c) == i
  {
    if i > 0 {
      FindAt(s[1..], c, i - 1);
    }
  }

  predicate EndsNetloc(c: char) { c == '/' || c == '?' || c == '#' }

  /** Where the network location starting at the front of `s` ends: the first
      `/`, `?` or `#`, or the end of `s`. */
  function NetlocEnd(s: string): (i: nat)
    ensures i <= |s| && (i < |s| ==> EndsNetloc(s[i]))
  {
    if s == [] then 0 else if EndsNetloc(s[0]) then 0 else 1 + NetlocEnd(s[1..])
  }

  lemma {:induction false} NetlocEndAt(s: string, i: nat)
    requires i <= |s| && (i < |s| ==> EndsNetloc(s[i]))
    requires forall k :: 0 <= k < i ==> !EndsNetloc(s[k])
    ensures NetlocEnd(s) == i
  {
    if i > 0 {
      NetlocEndAt(s[1..], i - 1);
    }
  }

  /** The scheme prefix `urlsplit` recognises: the text before the first `:`
      when it is non-empty, starts with an ASCII letter and holds only letters,
      digits, `+`, `-` and `.`. Returns the lower-cased scheme and the rest:
      either no scheme and the whole url, or the scheme (with no upper-case
      letter left) and what follows its colon. */
  function SplitScheme(url: string): (split: (string, string))
    ensures split.0 == "" ==> split.1 == url
    ensures split.0 != "" ==>
      var i := |split.0|;
      && i == Find(url, ':') && i < |url|
      && IsLetter(url[0]) && AllSchemeChars(url[..i])
      && split.0 == Lower(url[..i]) && split.1 == url[i + 1..]
    ensures forall k :: 0 <= k < |split.0| ==> !IsUpper(split.0[k])
  {
    var i := Find(url, ':');
    if 0 < i < |url| && IsLetter(url[0]) && AllSchemeChars(url[..i])
    then (Lower(url[..i]), url[i + 1..])
    else ("", url)
  }

  /** The network location `urlsplit` takes from what follows the scheme:
      the text after a leading `//` up to the first `/`, `?` or `#`, and empty
      without a leading `//`. An unmatched bracket in it makes `urlsplit` raise,
      so a network location returned has both brackets or neither. */
  function SplitNetloc(rest: string): (r: Outcome<string>)
    ensures r.Raised? ==> r.message == "Invalid IPv6 URL" && |rest| >= 2 && rest[..2] == "//"
    ensures r.Returned? ==> ('[' in r.value <==> ']' in r.value)
    ensures r.Returned? && r.value != "" ==>
      var n := |r.value|;
      && 2 + n <= |rest| && rest[..2] == "//" && rest[2..2 + n] == r.value
      && (2 + n == |rest| || EndsNetloc(rest[2 + n]))
    ensures !(|rest| >= 2 && rest[..2] == "//") ==> r == Returned("")
  {
    if |rest| >= 2 && rest[0] == '/' && rest[1] == '/' then
      var netloc := rest[2..2 + NetlocEnd(rest[2..])];
      if ('[' in netloc && ']' !in netloc) || (']' in netloc && '[' !in netloc)
      then Raised("Invalid IPv6 URL")
      else Returned(netloc)
    else Returned("")
  }

  /** `urlparse(url)`, the scheme and network location only. It fails only
      on an unmatched bracket; the scheme it gives is lower-case. */
  function UrlParse(url: string): (r: Outcome<UrlParts>)
    ensures r.Raised? ==> r.message == "Invalid IPv6 URL"
    ensures r.Returned? ==> ('[' in r.value.netloc <==> ']' in r.value.netloc)
    ensures r.Returned? ==> forall k :: 0 <= k < |r.value.scheme| ==> !IsUpper(r.value.scheme[k])
  {
    var (scheme, rest) := SplitScheme(url);
    match SplitNetloc(rest)
    case Raised(m) => Raised(m)
    case Returned(netloc) => Returned(UrlParts(scheme, netloc))
  }

  lemma SplitSchemeOf(scheme: string, after: string)
    requires |scheme| > 0 && IsLetter(scheme[0]) && AllSchemeChars(scheme)
    ensures SplitScheme(scheme + ":" + after) == (Lower(scheme), after)
  {
    var url := scheme + ":" + after;
    forall k | 0 <= k < |scheme| ensures url[k] != ':' {
      assert url[k] == scheme[k];
    }
    FindAt(url, ':', |scheme|);
    assert url[..|scheme|] == scheme;
    assert url[|scheme| + 1..] == after;
    assert url[0] == scheme[0];
  }

  /** After `//`, the text up to the first delimiter is the network
      location `SplitNetloc` checks. */
  lemma NetlocAfterSlashes(netloc: string, rest: string)
    requires forall k :: 0 <= k < |netloc| ==> !EndsNetloc(netloc[k])
    requires rest == [] || EndsNetloc(rest[0])
    ensures var after := "//" + netloc + rest;
      && |after| >= 2 && after[0] == '/' && after[1] == '/'
      && after[2..2 + NetlocEnd(after[2..])] == netloc
  {
    var tail := netloc + rest;
    var after := "//" + tail;
    assert after == "//" + netloc + rest;
    assert after[2..] == tail;
    forall k | 0 <= k < |netloc| ensures !EndsNetloc(tail[k]) {
      assert tail[k] == netloc[k];
    }
    NetlocEndAt(tail, |netloc|);
    assert tail[..|netloc|] == netloc;
  }

  /** A network location with both brackets or neither is returned as is. */
  lemma SplitNetlocOf(netloc: string, rest: string)
    requires forall k :: 0 <= k < |netloc| ==> !EndsNetloc(netloc[k])
    requires '[' in netloc <==> ']' in netloc
    requires rest == [] || EndsNetloc(rest[0])
    ensures SplitNetloc("//" + netloc + rest) == Returned(netloc)
  {
    NetlocAfterSlashes(netloc, rest);
  }

  /** A network location with exactly one kind of bracket makes the split raise. */
  lemma SplitNetlocRaises(netloc: string, rest: string)
    requires forall k :: 0 <= k < |netloc| ==> !EndsNetloc(netloc[k])
    requires ('[' in netloc) != (']' in netloc)
    requires rest == [] || EndsNetloc(rest[0])
    ensures SplitNetloc("//" + netloc + rest) == Raised("Invalid IPv6 URL")
  {
    NetlocAfterSlashes(netloc, rest);
  }

  lemma UrlParseOf(url: string, scheme: string, after: string, netloc: string)
    requires SplitScheme(url) == (scheme, after)
    requires SplitNetloc(after) == Returned(netloc)
    ensures UrlParse(url) == Returned(UrlParts(scheme, netloc))
  {
  }

  /** Proof step: `scheme://...` regrouped as the scheme, its colon and the rest. */
  lemma SchemeSeparator(scheme: string, netloc: string, rest: string)
    ensures scheme + "://" + netloc + rest == scheme + ":" + ("//" + netloc + rest)
  {
    assert "://" == ":" + "//";
  }

  /** A well-formed absolute url, a bracketed host such as `http://[::1]/`
      included, splits back into its scheme (lower-cased) and its network location. */
  lemma UrlParseRoundTrip(scheme: string, netloc: string, rest: string)
    requires |scheme| > 0 && IsLetter(scheme[0]) && AllSchemeChars(scheme)
    requires forall k :: 0 <= k < |netloc| ==> !EndsNetloc(netloc[k])
    requires '[' in netloc <==> ']' in netloc
    requires rest == [] || EndsNetloc(rest[0])
    ensures UrlParse(scheme + "://" + netloc + rest) == Returned(UrlParts(Lower(scheme), netloc))
  {
    var after := "//" + netloc + rest;
    var url := scheme + ":" + after;
    SchemeSeparator(scheme, netloc, rest);
    SplitSchemeOf(scheme, after);
    SplitNetlocOf(netloc, rest);
    UrlParseOf(url, Lower(scheme), after, netloc);
  }

  /** A successful parse is made of the two splits. */
  lemma UrlParseParts(url: string)
    requires UrlParse(url).Returned?
    ensures UrlParse(url).value.scheme == SplitScheme(url).0
    ensures SplitNetloc(SplitScheme(url).1) == Returned(UrlParse(url).value.netloc)
  {
  }

  /** A url whose parse has both a scheme and a network location spells out
      `scheme://netloc` at its front. */
  lemma UrlParseShape(url: string)
    requires UrlParse(url).Returned?
    requires UrlParse(url).value.scheme != "" && UrlParse(url).value.netloc != ""
    ensures
      var i := Find(url, ':');
      var parts := UrlParse(url).value;
      && i + 3 + |parts.netloc| <= |url|
      && Lower(url[..i]) == parts.scheme
      && url[i..i + 3] == "://"
      && url[i + 3..i + 3 + |parts.netloc|] == parts.netloc
  {
    var split := SplitScheme(url);
    var i, rest := |split.0|, split.1;
    var netloc := UrlParse(url).value.netloc;
    UrlParseParts(url);
    assert i == Find(url, ':') && rest == url[i + 1..];
    assert url[i] == ':' && url[i + 1] == rest[0] == '/' && url[i + 2] == rest[1] == '/';
    assert url[i..i + 3] == "://";
    assert rest[2..2 + |netloc|] == url[i + 3..i + 3 + |netloc|];
  }

  /** The tool rejects a url without a scheme or without a network location. */
  predicate FetchableUrl(parts: UrlParts) {
    parts.scheme != "" && parts.netloc != ""
  }

  // --------------------------------------------------------------- article

  const ArticleLimit := 3000
  const MinArticleLength := 50

  /** `fetch_article`: `article` is what downloading and parsing the url
      gave: its `text`, or the exception it raised. */
  function FetchArticle(url: string, article: Outcome<string>): (r: string)
    ensures UrlParse(url).Raised? ==>
      r == "Error fetching content from " + url + ": " + UrlParse(url).message
    ensures UrlParse(url).Returned? && !FetchableUrl(UrlParse(url).value) ==>
      r == "Invalid URL format: " + url
    ensures UrlParse(url).Returned? && FetchableUrl(UrlParse(url).value) ==>
      match article
      case Raised(m) => r == "Error fetching content from " + url + ": " + m
      case Returned(text) =>
        if |text| > MinArticleLength
        then |r| == (if |text| < ArticleLimit then |text| else ArticleLimit) && r == text[..|r|]
        else r == "Insufficient content from " + url
  {
    match UrlParse(url)
    case Raised(m) => "Error fetching content from " + url + ": " + m
    case Returned(parts) =>
      if !FetchableUrl(parts) then "Invalid URL format: " + url
      else
        match article
        case Raised(m) => "Error fetching content from " + url + ": " + m
        case Returned(text) =>
          if text != "" && |text| > MinArticleLength
          then text[..if |text| < ArticleLimit then |text| else ArticleLimit]
          else "Insufficient content from " + url
  }

  /** The article is not consulted for a url the tool rejects. */
  lemma RejectedUrlIgnoresArticle(url: string, a: Outcome<string>, b: Outcome<string>)
    requires UrlParse(url).Raised? || !FetchableUrl(UrlParse(url).value)
    ensures FetchArticle(url, a) == FetchArticle(url, b)
  {
  }

  /** Article text that comes back is a prefix of the parsed text, longer than
      fifty and at most three thousand characters. */
  lemma ArticleBounds(url: string, text: string)
    requires UrlParse(url).Returned? && FetchableUrl(UrlParse(url).value)
    requires |text| > MinArticleLength
    ensures var r := FetchArticle(url, Returned(text));
      MinArticleLength < |r| <= ArticleLimit && r == text[..|r|]
  {
  }
}
