/** The parts of URL and path handling the CSV pickers use:
    `os.path.basename` and the path component of `urllib.parse.urlparse`. */
module Paths {

  /** Everything before the first `c` (all of `s` when it has none). */
  function CutAt(s: string, c: char): (r: string)
    ensures r <= s && c !in r
    ensures |r| < |s| ==> s[|r|] == c
  {
    if s == [] || s[0] == c then [] else [s[0]] + CutAt(s[1..], c)
  }

  /** `os.path.basename`: what follows the last '/' (all of `p` when it has
      none, "" when it ends with '/'). */
  function Basename(p: string): (b: string)
    ensures |b| <= |p| && p[|p| - |b|..] == b
    ensures '/' !in b
    ensures |b| < |p| ==> p[|p| - |b| - 1] == '/'
  {
    if p == [] || p[|p| - 1] == '/' then []
    else Basename(p[..|p| - 1]) + [p[|p| - 1]]
  }

  predicate IsSchemeChar(c: char)
  {
    'a' <= c <= 'z' || 'A' <= c <= 'Z' || '0' <= c <= '9' || c == '+' || c == '-' || c == '.'
  }

  /** A URL scheme: a letter followed by letters, digits, '+', '-' or '.'. */
  predicate IsScheme(s: string)
  {
    |s| > 0 && ('a' <= s[0] <= 'z' || 'A' <= s[0] <= 'Z') && forall i :: 0 <= i < |s| ==> IsSchemeChar(s[i])
  }

  /** The path component `urlparse(u).path`: the fragment after '#' and the
      query after '?' are dropped, then a `scheme://netloc` head, the
      network location running up to the next '/'. */
  function UrlPath(u: string): (p: string)
    ensures '#' !in p && '?' !in p
  {
    var rest := CutAt(CutAt(u, '#'), '?');
    var scheme := CutAt(rest, ':');
    if IsScheme(scheme) && |scheme| + 3 <= |rest| && rest[|scheme|..|scheme| + 3] == "://" then
      var authority := rest[|scheme| + 3..];
      var netloc := CutAt(authority, '/');
      assert forall c :: c in authority[|netloc|..] ==> c in rest;
      authority[|netloc|..]
    else
      rest
  }

  /** The file name of a URL's path, as `os.path.basename(urlparse(u).path)`
      gives it: the network location, query and fragment never leak in. */
  lemma UrlFileNameIsLastSegment(u: string)
    ensures var name := Basename(UrlPath(u));
      '/' !in name && '?' !in name && '#' !in name
  {
    var p := UrlPath(u);
    var name := Basename(p);
    assert forall c :: c in name ==> c in p[|p| - |name|..];
  }

  /** A `scheme://host/path` URL without query or fragment has exactly
      `/path` as its path. */
  lemma UrlPathOfPlainUrl(scheme: string, host: string, path: string)
    requires IsScheme(scheme) && '/' !in host && '?' !in host && '#' !in host
    requires |path| > 0 && path[0] == '/' && '?' !in path && '#' !in path
    ensures UrlPath(scheme + "://" + host + path) == path
  {
    var tail := "://" + host + path;
    var u := scheme + tail;
    assert u == scheme + "://" + host + path;
    assert ':' !in scheme by {
      assert forall i :: 0 <= i < |scheme| ==> IsSchemeChar(scheme[i]);
    }
    assert '#' !in u && '?' !in u;
    CutAtAbsent(u, '#');
    CutAtAbsent(u, '?');
    CutAtStops(scheme, ':', tail);
    var authority := host + path;
    assert tail == "://" + authority;
    assert u[|scheme|..] == tail;
    assert u[|scheme|..|scheme| + 3] == tail[..3] == "://";
    assert u[|scheme| + 3..] == tail[3..] == authority;
    CutAtStops(host, '/', path);
  }

  lemma {:induction false} CutAtAbsent(s: string, c: char)
    requires c !in s
    ensures CutAt(s, c) == s
  {
    if s != [] {
      CutAtAbsent(s[1..], c);
    }
  }

  lemma {:induction false} CutAtStops(a: string, c: char, b: string)
    requires c !in a && (b == [] || b[0] == c)
    ensures CutAt(a + b, c) == a
  {
    if a != [] {
      assert (a + b)[1..] == a[1..] + b;
      CutAtStops(a[1..], c, b);
    }
  }

  lemma {:induction false} BasenameOfSlashName(dir: string, file: string)
    requires '/' !in file
    ensures Basename(dir + "/" + file) == file
  {
    if file != [] {
      var init := file[..|file| - 1];
      assert (dir + "/" + file)[..|dir + "/" + file| - 1] == dir + "/" + init;
      BasenameOfSlashName(dir, init);
      assert file == init + [file[|file| - 1]];
    }
  }
}
