/**
 * Base-URL validation of ArcGISPyGnu (`checkBaseUrl`, utils.py).
 *
 * The regular expression of utils.py:19-33 is given declaratively: a string
 * matches when it splits into scheme, optional credentials, host, optional
 * port, path, optional query and optional fragment, each of the shape its
 * sub-pattern describes. Python's `re` finds a match whenever such a split
 * exists, so no backtracking order needs modelling.
 */
module Utils {
  import opened Results

  /** The two `sys.exit(1)` paths of `checkBaseUrl`. */
  datatype UrlError =
    | InvalidFormat     // the pattern did not match (utils.py:37-39)
    | QueryOrFragment   // the URL contains '?' or '#' (utils.py:42-44)

  // ---------------------------------------------------------------------
  // Character classes

  /** Python's `\s` for str patterns: the characters for which `str.isspace()` holds. */
  predicate IsSpace(c: char) {
    c == ' ' || ('\t' <= c <= '\r') || ('\U{1C}' <= c <= '\U{1F}')
    || c == '\U{85}' || c == '\U{A0}' || c == '\U{1680}'
    || ('\U{2000}' <= c <= '\U{200A}') || c == '\U{2028}' || c == '\U{2029}'
    || c == '\U{202F}' || c == '\U{205F}' || c == '\U{3000}'
  }

  /** `\d`, restricted to the ASCII digits. */
  predicate IsDigit(c: char) { '0' <= c <= '9' }

  /** `[a-zA-Z]` */
  predicate IsLetter(c: char) { 'a' <= c <= 'z' || 'A' <= c <= 'Z' }

  /** `[a-zA-Z0-9-]` */
  predicate IsLabelChar(c: char) { IsLetter(c) || IsDigit(c) || c == '-' }

  predicate NoSpace(s: string) { forall k | 0 <= k < |s| :: !IsSpace(s[k]) }

  predicate AllDigits(s: string) { forall k | 0 <= k < |s| :: IsDigit(s[k]) }

  predicate AllLetters(s: string) { forall k | 0 <= k < |s| :: IsLetter(s[k]) }

  predicate AllLabelChars(s: string) { forall k | 0 <= k < |s| :: IsLabelChar(s[k]) }

  // ---------------------------------------------------------------------
  // The sub-patterns of utils.py:20-32

  /** `(?:http|https)://` */
  predicate Scheme(s: string) { s == "http://" || s == "https://" }

  /**
   * `\S+(?::\S*)?`: since ':' is not whitespace, the optional `:\S*` adds no
   * strings of its own, and the group is one or more non-whitespace characters.
   */
  predicate Credentials(s: string) {
    |s| >= 1 && NoSpace(s)
  }

  /** `(?:\S+(?::\S*)?@)?` */
  predicate UserInfo(s: string) {
    s == [] || (|s| >= 2 && s[|s| - 1] == '@' && Credentials(s[..|s| - 1]))
  }

  /** `\d{1,3}` */
  predicate Octet(s: string) { 1 <= |s| <= 3 && AllDigits(s) }

  /** `\d{1,3}(?:\.\d{1,3}){3}` */
  predicate IpAddress(s: string) {
    exists i, j, k | 0 < i < j < k < |s| :: DottedAt(s, i, j, k)
  }

  /** `s` is four octets with its dots at `i`, `j` and `k`. */
  predicate DottedAt(s: string, i: int, j: int, k: int) {
    && 0 < i < j < k < |s|
    && s[i] == '.' && s[j] == '.' && s[k] == '.'
    && Octet(s[..i]) && Octet(s[i + 1..j]) && Octet(s[j + 1..k]) && Octet(s[k + 1..])
  }

  /** `(?:[a-zA-Z0-9-]+\.)+` */
  predicate Labels(s: string)
    decreases |s|
  {
    exists i {:trigger AllLabelChars(s[..i])} | 0 < i < |s| ::
      s[i] == '.' && AllLabelChars(s[..i]) && (i == |s| - 1 || Labels(s[i + 1..]))
  }

  /** `[a-zA-Z]{2,}` */
  predicate TopLevel(s: string) { |s| >= 2 && AllLetters(s) }

  /** `(?:[a-zA-Z0-9-]+\.)+[a-zA-Z]{2,}` */
  predicate Domain(s: string) {
    exists i {:trigger Labels(s[..i])} | 0 < i < |s| :: Labels(s[..i]) && TopLevel(s[i..])
  }

  /** The IP-or-domain group of utils.py:22-28. */
  predicate Host(s: string) { IpAddress(s) || Domain(s) }

  /** `(?::\d{2,5})?` */
  predicate Port(s: string) {
    s == [] || (s[0] == ':' && 3 <= |s| <= 6 && AllDigits(s[1..]))
  }

  /**
   * `(?:(?:/[^\s/?#]*)*)`: empty, or a '/' followed by characters that are
   * neither whitespace nor '?' nor '#' (every further '/' starts a new
   * segment, so the repetition accepts exactly these strings).
   */
  predicate Path(s: string) {
    s == [] || (s[0] == '/' && forall k | 0 <= k < |s| :: !IsSpace(s[k]) && s[k] != '?' && s[k] != '#')
  }

  /** `(?:\?[^\s#]*)?` */
  predicate Query(s: string) {
    s == [] || (s[0] == '?' && forall k | 1 <= k < |s| :: !IsSpace(s[k]) && s[k] != '#')
  }

  /** `(?:#[^\s]*)?` */
  predicate Fragment(s: string) {
    s == [] || (s[0] == '#' && NoSpace(s[1..]))
  }

  /*
   * The whole pattern matches the whole of a string (as `re.fullmatch` would)
   * when the string splits, left to right, into the parts of utils.py:20-32.
   * Each predicate below takes off one part and hands the rest on.
   */

  /** The whole pattern matches the whole of `s`: an authority, then a locator. */
  predicate FullMatch(s: string) {
    exists d {:trigger Authority(s[..d])} | 0 <= d <= |s| :: Authority(s[..d]) && Locator(s[d..])
  }

  /** Scheme, optional user information, host and optional port (utils.py:20-29). */
  predicate Authority(s: string) {
    exists a {:trigger AfterScheme(s[a..])} | 0 <= a <= |s| :: Scheme(s[..a]) && AfterScheme(s[a..])
  }

  /** Optional user information, host and optional port. */
  predicate AfterScheme(s: string) {
    exists b {:trigger HostAndPort(s[b..])} | 0 <= b <= |s| :: UserInfo(s[..b]) && HostAndPort(s[b..])
  }

  /** Host and optional port. */
  predicate HostAndPort(s: string) {
    exists c {:trigger Host(s[..c])} | 0 <= c <= |s| :: Host(s[..c]) && Port(s[c..])
  }

  /** Path, optional query and optional fragment (utils.py:30-32). */
  predicate Locator(s: string) {
    exists e {:trigger AfterPath(s[e..])} | 0 <= e <= |s| :: Path(s[..e]) && AfterPath(s[e..])
  }

  /** Optional query and optional fragment. */
  predicate AfterPath(s: string) {
    exists f {:trigger Fragment(s[f..])} | 0 <= f <= |s| :: Query(s[..f]) && Fragment(s[f..])
  }

  /**
   * What `re.match(urlPattern, url)` decides at utils.py:36: the pattern ends
   * in `$`, which without MULTILINE matches at the end of the string and also
   * just before a newline that ends the string.
   */
  predicate PythonMatch(s: string) {
    FullMatch(s) || (|s| > 0 && s[|s| - 1] == '\n' && FullMatch(s[..|s| - 1]))
  }

  // ---------------------------------------------------------------------
  // checkBaseUrl

  predicate HasQueryOrFragment(s: string) { '?' in s || '#' in s }

  predicate EndsWithSlash(s: string) { |s| > 0 && s[|s| - 1] == '/' }

  predicate StartsWithScheme(s: string) { "http://" <= s || "https://" <= s }

  /**
   * The guards and the normalisation of utils.py:37-50, given whether the
   * pattern matched.
   */
  function Validate(url: string, matched: bool): (r: Result<string, UrlError>)
    ensures !matched ==> r == Err(InvalidFormat)
    ensures matched && HasQueryOrFragment(url) ==> r == Err(QueryOrFragment)
    ensures r.Ok? <==> matched && !HasQueryOrFragment(url)
    ensures r.Ok? ==> EndsWithSlash(r.value) && !HasQueryOrFragment(r.value)
    ensures r.Ok? ==> url <= r.value && |r.value| <= |url| + 1
    ensures r.Ok? && EndsWithSlash(url) ==> r.value == url
  {
    if !matched then Err(InvalidFormat)
    else if '?' in url || '#' in url then Err(QueryOrFragment)
    else if EndsWithSlash(url) then Ok(url)
    else Ok(url + "/")
  }

  /** `checkBaseUrl` exactly as written: the pattern is applied with `re.match`. */
  function CheckBaseUrlAsWritten(url: string): (r: Result<string, UrlError>)
    ensures !PythonMatch(url) ==> r == Err(InvalidFormat)
    ensures PythonMatch(url) && HasQueryOrFragment(url) ==> r == Err(QueryOrFragment)
    ensures r.Ok? <==> PythonMatch(url) && !HasQueryOrFragment(url)
    ensures r.Ok? ==> EndsWithSlash(r.value) && !HasQueryOrFragment(r.value)
    ensures r.Ok? ==> r.value == if EndsWithSlash(url) then url else url + "/"
  {
    Validate(url, PythonMatch(url))
  }

  /**
   * `checkBaseUrl` with the pattern anchored at the very end of the string,
   * as its doc comment intends; the Corrected* variants in Core validate with this one.
   */
  function CheckBaseUrl(url: string): (r: Result<string, UrlError>)
    ensures !FullMatch(url) ==> r == Err(InvalidFormat)
    ensures FullMatch(url) && HasQueryOrFragment(url) ==> r == Err(QueryOrFragment)
    ensures r.Ok? <==> FullMatch(url) && !HasQueryOrFragment(url)
    ensures r.Ok? ==> EndsWithSlash(r.value) && !HasQueryOrFragment(r.value)
    ensures r.Ok? ==> r.value == if EndsWithSlash(url) then url else url + "/"
  {
    Validate(url, FullMatch(url))
  }

  // ---------------------------------------------------------------------
  // Properties of the pattern

  /** Every string the pattern matches as a whole starts with `http://` or `https://`. */
  lemma FullMatchHasScheme(s: string)
    requires FullMatch(s)
    ensures StartsWithScheme(s)
  {
    var d :| 0 <= d <= |s| && Authority(s[..d]) && Locator(s[d..]);
    AuthorityHasScheme(s[..d]);
    assert s[..d] <= s;
  }

  lemma AuthorityHasScheme(s: string)
    requires Authority(s)
    ensures StartsWithScheme(s)
  {
    var a :| 0 <= a <= |s| && Scheme(s[..a]) && AfterScheme(s[a..]);
    assert s[..a] <= s;
  }

  /** Any URL that does not start with `http://` or `https://` is rejected, by either version. */
  lemma SchemeRequired(url: string)
    requires !StartsWithScheme(url)
    ensures CheckBaseUrl(url) == Err(InvalidFormat)
    ensures CheckBaseUrlAsWritten(url) == Err(InvalidFormat)
  {
    if FullMatch(url) {
      FullMatchHasScheme(url);
    }
    if |url| > 0 && url[|url| - 1] == '\n' && FullMatch(url[..|url| - 1]) {
      FullMatchHasScheme(url[..|url| - 1]);
    }
  }

  lemma SchemeNoSpace(s: string)
    requires Scheme(s)
    ensures NoSpace(s)
  {
    if s == "http://" {
      assert NoSpace("http://");
    } else {
      assert NoSpace("https://");
    }
  }

  /** A string whose two halves hold no whitespace holds none. */
  lemma JoinNoSpace(s: string, k: int)
    requires 0 <= k <= |s| && NoSpace(s[..k]) && NoSpace(s[k..])
    ensures NoSpace(s)
  {
    forall n | 0 <= n < |s| ensures !IsSpace(s[n]) {
      if n < k {
        assert s[n] == s[..k][n];
      } else {
        assert s[n] == s[k..][n - k];
      }
    }
  }

  lemma UserInfoNoSpace(s: string)
    requires UserInfo(s)
    ensures NoSpace(s)
  {
    if s != [] {
      JoinNoSpace(s, |s| - 1);
    }
  }

  lemma LabelsNoSpace(s: string)
    requires Labels(s)
    ensures NoSpace(s)
    decreases |s|
  {
    var i :| 0 < i < |s| && s[i] == '.' && AllLabelChars(s[..i]) && (i == |s| - 1 || Labels(s[i + 1..]));
    if i < |s| - 1 {
      LabelsNoSpace(s[i + 1..]);
    }
    JoinNoSpace(s[i..], 1);
    JoinNoSpace(s, i);
  }

  /** Four octets and three dots hold digits and dots only. */
  lemma DottedNoSpace(s: string, i: int, j: int, k: int)
    requires DottedAt(s, i, j, k)
    ensures NoSpace(s)
  {
    forall n | 0 <= n < |s| ensures !IsSpace(s[n]) {
      if n < i {
        assert s[n] == s[..i][n];
      } else if i < n < j {
        assert s[n] == s[i + 1..j][n - i - 1];
      } else if j < n < k {
        assert s[n] == s[j + 1..k][n - j - 1];
      } else if k < n {
        assert s[n] == s[k + 1..][n - k - 1];
      }
    }
  }

  lemma DomainNoSpace(s: string)
    requires Domain(s)
    ensures NoSpace(s)
  {
    var i :| 0 < i < |s| && Labels(s[..i]) && TopLevel(s[i..]);
    LabelsNoSpace(s[..i]);
    JoinNoSpace(s, i);
  }

  lemma HostNoSpace(s: string)
    requires Host(s)
    ensures NoSpace(s)
  {
    if IpAddress(s) {
      var i, j, k :| 0 < i < j < k < |s| && DottedAt(s, i, j, k);
      DottedNoSpace(s, i, j, k);
    } else {
      DomainNoSpace(s);
    }
  }

  lemma HostAndPortNoSpace(s: string)
    requires HostAndPort(s)
    ensures NoSpace(s)
  {
    var c :| 0 <= c <= |s| && Host(s[..c]) && Port(s[c..]);
    HostNoSpace(s[..c]);
    if c < |s| {
      JoinNoSpace(s[c..], 1);
    }
    JoinNoSpace(s, c);
  }

  lemma AfterSchemeNoSpace(s: string)
    requires AfterScheme(s)
    ensures NoSpace(s)
  {
    var b :| 0 <= b <= |s| && UserInfo(s[..b]) && HostAndPort(s[b..]);
    UserInfoNoSpace(s[..b]);
    HostAndPortNoSpace(s[b..]);
    JoinNoSpace(s, b);
  }

  lemma AuthorityNoSpace(s: string)
    requires Authority(s)
    ensures NoSpace(s)
  {
    var a :| 0 <= a <= |s| && Scheme(s[..a]) && AfterScheme(s[a..]);
    SchemeNoSpace(s[..a]);
    AfterSchemeNoSpace(s[a..]);
    JoinNoSpace(s, a);
  }

  lemma AfterPathNoSpace(s: string)
    requires AfterPath(s)
    ensures NoSpace(s)
  {
    var f :| 0 <= f <= |s| && Query(s[..f]) && Fragment(s[f..]);
    if f < |s| {
      JoinNoSpace(s[f..], 1);
    }
    JoinNoSpace(s, f);
  }

  lemma LocatorNoSpace(s: string)
    requires Locator(s)
    ensures NoSpace(s)
  {
    var e :| 0 <= e <= |s| && Path(s[..e]) && AfterPath(s[e..]);
    AfterPathNoSpace(s[e..]);
    JoinNoSpace(s, e);
  }

  /** No string the pattern matches as a whole contains whitespace. */
  lemma FullMatchNoSpace(s: string)
    requires FullMatch(s)
    ensures NoSpace(s)
  {
    var d :| 0 <= d <= |s| && Authority(s[..d]) && Locator(s[d..]);
    AuthorityNoSpace(s[..d]);
    LocatorNoSpace(s[d..]);
    JoinNoSpace(s, d);
  }

  /** A suffix of a string without '?' and '#' has neither. */
  lemma SuffixHasNoQueryOrFragment(s: string, k: int)
    requires 0 <= k <= |s| && !HasQueryOrFragment(s)
    ensures !HasQueryOrFragment(s[k..])
  {
    forall n | 0 <= n < |s| - k ensures s[k..][n] != '?' && s[k..][n] != '#' {
      assert s[k..][n] == s[k + n];
    }
  }

  /** Without '?' and '#', the query and fragment parts are empty. */
  lemma AfterPathEmpty(s: string)
    requires AfterPath(s) && !HasQueryOrFragment(s)
    ensures s == []
  {
    var f :| 0 <= f <= |s| && Query(s[..f]) && Fragment(s[f..]);
  }

  /** A path alone is a locator. */
  lemma PathIsLocator(s: string)
    requires Path(s)
    ensures Locator(s)
  {
    assert AfterPath(s[|s|..]) by {
      assert s[|s|..] == [];
      assert Query([][..0]) && Fragment([][0..]);
    }
    assert s[..|s|] == s;
  }

  /** A path followed by '/' is a path. */
  lemma PathAppendSlash(s: string)
    requires Path(s)
    ensures Path(s + "/")
  {
    var t := s + "/";
    assert t[0] == '/';
    forall k | 0 <= k < |t| ensures !IsSpace(t[k]) && t[k] != '?' && t[k] != '#' {
      if k < |s| {
        assert t[k] == s[k];
      }
    }
  }

  /** Without '?' and '#', a locator is a path, and stays one when '/' is appended. */
  lemma LocatorAppendSlash(s: string)
    requires Locator(s) && !HasQueryOrFragment(s)
    ensures Path(s) && Locator(s + "/")
  {
    var e :| 0 <= e <= |s| && Path(s[..e]) && AfterPath(s[e..]);
    SuffixHasNoQueryOrFragment(s, e);
    AfterPathEmpty(s[e..]);
    assert s[..e] == s;
    PathAppendSlash(s);
    PathIsLocator(s + "/");
  }

  /** An authority followed by a locator matches the pattern. */
  lemma AuthorityAndLocatorMatch(authority: string, locator: string)
    requires Authority(authority) && Locator(locator)
    ensures FullMatch(authority + locator)
  {
    var s := authority + locator;
    assert s[..|authority|] == authority && s[|authority|..] == locator;
  }

  /** Splitting a string, appending '/' to its second part and joining them again appends '/'. */
  lemma SplitAppendSlash(s: string, d: int)
    requires 0 <= d <= |s|
    ensures s[..d] + (s[d..] + "/") == s + "/"
  {
  }

  /** Appending '/' to a whole-string match without query or fragment keeps it a whole-string match. */
  lemma AppendSlashMatches(s: string)
    requires FullMatch(s) && !HasQueryOrFragment(s)
    ensures FullMatch(s + "/")
  {
    var d :| 0 <= d <= |s| && Authority(s[..d]) && Locator(s[d..]);
    SuffixHasNoQueryOrFragment(s, d);
    LocatorAppendSlash(s[d..]);
    AuthorityAndLocatorMatch(s[..d], s[d..] + "/");
    SplitAppendSlash(s, d);
  }

  // ---------------------------------------------------------------------
  // Properties of checkBaseUrl

  /**
   * Validating an already validated URL returns it unchanged; restGetServiceByType
   * relies on this when it validates a URL and passes the result to restGetServices.
   */
  lemma CheckBaseUrlIdempotent(url: string)
    requires CheckBaseUrl(url).Ok?
    ensures CheckBaseUrl(CheckBaseUrl(url).value) == CheckBaseUrl(url)
  {
    if !EndsWithSlash(url) {
      AppendSlashMatches(url);
    }
  }

  /** A scheme followed by a host is an authority. */
  lemma SchemeAndHostIsAuthority(scheme: string, host: string)
    requires Scheme(scheme) && Host(host)
    ensures Authority(scheme + host)
  {
    assert HostAndPort(host) by {
      assert host[..|host|] == host && Port(host[|host|..]);
    }
    assert AfterScheme(host) by {
      assert UserInfo(host[..0]) && host[0..] == host;
    }
    var s := scheme + host;
    assert s[..|scheme|] == scheme && s[|scheme|..] == host;
  }

  /** An authority followed by a path matches as a whole. */
  lemma AuthorityAndPathMatches(authority: string, path: string)
    requires Authority(authority) && Path(path)
    ensures FullMatch(authority + path)
  {
    PathIsLocator(path);
    AuthorityAndLocatorMatch(authority, path);
  }

  /** `example.com` is a host name. */
  lemma ExampleHost()
    ensures Host("example.com")
  {
    assert AllLabelChars("example");
    assert "example."[..7] == "example";
    assert Labels("example.");
    assert "example.com"[..8] == "example." && "example.com"[8..] == "com";
    assert TopLevel("com");
  }

  /** Two strings without '?' and '#' make a string without them. */
  lemma JoinNoQueryOrFragment(x: string, y: string)
    requires !HasQueryOrFragment(x) && !HasQueryOrFragment(y)
    ensures !HasQueryOrFragment(x + y)
  {
    var s := x + y;
    forall k | 0 <= k < |s| ensures s[k] != '?' && s[k] != '#' {
      if k < |x| {
        assert s[k] == x[k];
      } else {
        assert s[k] == y[k - |x|];
      }
    }
  }

  /** A whole-string match without '?', '#' and a final '/' is accepted with one '/' appended. */
  lemma AcceptedGainsSlash(url: string)
    requires FullMatch(url) && !HasQueryOrFragment(url) && !EndsWithSlash(url)
    ensures CheckBaseUrl(url) == Ok(url + "/")
  {
  }

  /**
   * An authority without '?' and '#' followed by a path not ending in '/' gains
   * one '/', both with the corrected validation and as written.
   */
  lemma AuthorityAndPathAccepted(authority: string, path: string)
    requires Authority(authority) && !HasQueryOrFragment(authority)
    requires Path(path) && path != [] && !EndsWithSlash(path)
    ensures CheckBaseUrl(authority + path) == Ok(authority + path + "/")
    ensures CheckBaseUrlAsWritten(authority + path) == Ok(authority + path + "/")
  {
    var s := authority + path;
    assert s[|s| - 1] == path[|path| - 1];
    AuthorityAndPathMatches(authority, path);
    JoinNoQueryOrFragment(authority, path);
    AcceptedGainsSlash(s);
    AgreeOnFullMatch(s);
  }

  /*
   * The concrete examples below receive their string literals as parameters
   * pinned by `requires`, and reason about concatenations of them.  Stated on
   * one long literal, the same facts make the solver expand every character
   * of it and become far more expensive to prove.
   */

  /** `http://example.com` is an authority. */
  lemma ExampleIsAuthority(scheme: string, host: string)
    requires scheme == "http://" && host == "example.com"
    ensures Authority(scheme + host)
  {
    ExampleHost();
    SchemeAndHostIsAuthority(scheme, host);
  }

  /** `http://example.com` has neither '?' nor '#'. */
  lemma ExampleHasNoQueryOrFragment(scheme: string, host: string)
    requires scheme == "http://" && host == "example.com"
    ensures !HasQueryOrFragment(scheme + host)
  {
    assert !HasQueryOrFragment(scheme);
    assert !HasQueryOrFragment(host);
    JoinNoQueryOrFragment(scheme, host);
  }

  /** `http://example.com` matches the pattern on its own. */
  lemma ExampleMatches(scheme: string, host: string)
    requires scheme == "http://" && host == "example.com"
    ensures FullMatch(scheme + host) && !HasQueryOrFragment(scheme + host)
  {
    ExampleIsAuthority(scheme, host);
    ExampleHasNoQueryOrFragment(scheme, host);
    AuthorityAndPathMatches(scheme + host, []);
    assert scheme + host + [] == scheme + host;
  }

  /** `/arcgis/rest/services` is a path of the pattern. */
  lemma ExamplePath(path: string)
    requires path == "/arcgis/rest/services"
    ensures Path(path) && !HasQueryOrFragment(path) && !EndsWithSlash(path)
  {
  }

  /**
   * A URL with a path is accepted, despite the doc comment, both as written
   * and corrected; it is only given a trailing '/'.  The URL is the one of tests/test_core.py,
   * `http://example.com/arcgis/rest/services`.
   */
  lemma PathIsAccepted(scheme: string, host: string, path: string)
    requires scheme == "http://" && host == "example.com" && path == "/arcgis/rest/services"
    ensures CheckBaseUrl(scheme + host + path) == Ok(scheme + host + path + "/")
    ensures CheckBaseUrlAsWritten(scheme + host + path) == Ok(scheme + host + path + "/")
  {
    ExampleIsAuthority(scheme, host);
    ExampleHasNoQueryOrFragment(scheme, host);
    ExamplePath(path);
    AuthorityAndPathAccepted(scheme + host, path);
  }

  /** As written, an accepted URL followed by a newline is accepted, and given a '/' after the newline. */
  lemma AsWrittenAcceptsTrailingNewline(url: string)
    requires FullMatch(url) && !HasQueryOrFragment(url)
    ensures CheckBaseUrlAsWritten(url + "\n") == Ok(url + "\n/")
  {
    NewlineMatchesAsWritten(url);
    JoinNoQueryOrFragment(url, "\n");
    NewlineLayout(url);
    AsWrittenGainsSlash(url + "\n");
  }

  /** How a string followed by a newline, and then by '/', is laid out. */
  lemma NewlineLayout(url: string)
    ensures (url + "\n")[..|url|] == url && (url + "\n")[|url|] == '\n'
    ensures url + "\n" + "/" == url + "\n/"
  {
  }

  /** As written, `$` lets a final newline through after a matching URL. */
  lemma NewlineMatchesAsWritten(url: string)
    requires FullMatch(url)
    ensures PythonMatch(url + "\n")
  {
    NewlineLayout(url);
  }

  /** As written, a match without '?', '#' and a final '/' is accepted with one '/' appended. */
  lemma AsWrittenGainsSlash(url: string)
    requires PythonMatch(url) && !HasQueryOrFragment(url) && !EndsWithSlash(url)
    ensures CheckBaseUrlAsWritten(url) == Ok(url + "/")
  {
  }

  /** No URL with a newline before its last character is accepted, as written or not. */
  lemma InnerNewlineRejected(url: string)
    ensures CheckBaseUrl(url + "\n/") == Err(InvalidFormat)
    ensures CheckBaseUrlAsWritten(url + "\n/") == Err(InvalidFormat)
  {
    var t := url + "\n/";
    if FullMatch(t) {
      FullMatchNoSpace(t);
      assert IsSpace(t[|url|]);
      assert false;
    }
  }

  /**
   * As written, the function is not idempotent: any accepted URL followed by a
   * newline is accepted, and normalised to a URL that is then rejected.
   */
  lemma AsWrittenNotIdempotent(url: string)
    requires FullMatch(url) && !HasQueryOrFragment(url)
    ensures CheckBaseUrlAsWritten(url + "\n") == Ok(url + "\n/")
    ensures CheckBaseUrlAsWritten(CheckBaseUrlAsWritten(url + "\n").value) == Err(InvalidFormat)
  {
    AsWrittenAcceptsTrailingNewline(url);
    InnerNewlineRejected(url);
  }

  /** The concrete case: `http://example.com` followed by a newline. */
  lemma AsWrittenNotIdempotentExample(scheme: string, host: string)
    requires scheme == "http://" && host == "example.com"
    ensures CheckBaseUrlAsWritten(scheme + host + "\n") == Ok(scheme + host + "\n/")
    ensures CheckBaseUrlAsWritten(scheme + host + "\n/") == Err(InvalidFormat)
  {
    ExampleMatches(scheme, host);
    AsWrittenNotIdempotent(scheme + host);
  }

  /** The corrected version rejects a URL that ends in a newline at once. */
  lemma CorrectedRejectsTrailingNewline(url: string)
    ensures CheckBaseUrl(url + "\n") == Err(InvalidFormat)
  {
    var t := url + "\n";
    if FullMatch(t) {
      FullMatchNoSpace(t);
      assert IsSpace(t[|url|]);
      assert false;
    }
  }

  /** On a string the pattern matches as a whole, both versions agree. */
  lemma AgreeOnFullMatch(url: string)
    requires FullMatch(url)
    ensures CheckBaseUrlAsWritten(url) == CheckBaseUrl(url)
  {
  }

  /** A prefix of a string without '?' and '#' has neither. */
  lemma PrefixHasNoQueryOrFragment(s: string, k: int)
    requires 0 <= k <= |s| && !HasQueryOrFragment(s)
    ensures !HasQueryOrFragment(s[..k])
  {
    forall n | 0 <= n < k ensures s[..k][n] != '?' && s[..k][n] != '#' {
      assert s[..k][n] == s[n];
    }
  }

  /** A string ending in a newline is what precedes it followed by the newline. */
  lemma DropNewline(url: string)
    requires |url| > 0 && url[|url| - 1] == '\n'
    ensures url == url[..|url| - 1] + "\n"
  {
  }

  /**
   * Validating, as written, the result of an accepted URL again: when the
   * pattern matched the whole URL the result is accepted unchanged; when it
   * matched only thanks to a final newline the result is rejected.
   */
  lemma AsWrittenRevalidation(url: string)
    requires CheckBaseUrlAsWritten(url).Ok?
    ensures FullMatch(url) ==> CheckBaseUrlAsWritten(CheckBaseUrlAsWritten(url).value) == CheckBaseUrlAsWritten(url)
    ensures !FullMatch(url) ==> CheckBaseUrlAsWritten(CheckBaseUrlAsWritten(url).value) == Err(InvalidFormat)
  {
    if FullMatch(url) {
      AgreeOnFullMatch(url);
      CheckBaseUrlIdempotent(url);
      AgreeOnFullMatch(CheckBaseUrl(url).value);
    } else {
      var w := url[..|url| - 1];
      DropNewline(url);
      PrefixHasNoQueryOrFragment(url, |url| - 1);
      AsWrittenNotIdempotent(w);
    }
  }
}
