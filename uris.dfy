/**
 * The part of `System.Uri` the response cache depends on: the path of an
 * absolute URL and its last segment (`uri.Segments.Last()`).
 *
 * A URL is read as `scheme "://" authority path ["?" query] ["#" fragment]`:
 * the authority runs up to the first '/', '?' or '#', the path up to the
 * first '?' or '#', and an empty path reads as "/".
 */
module Uris {
  import Text

  /** Index of the first character of `s` in `stops`, or `|s|` when there is none. */
  function FindFirst(s: string, stops: set<char>): (i: nat)
    ensures i <= |s|
    ensures forall k :: 0 <= k < i ==> s[k] !in stops
    ensures i < |s| ==> s[i] in stops
  {
    if s == [] || s[0] in stops then 0 else 1 + FindFirst(s[1..], stops)
  }

  /** `FindFirst` is pinned down by its contract: any index with the same two properties is it. */
  lemma FindFirstUnique(s: string, stops: set<char>, i: nat)
    requires i <= |s|
    requires forall k :: 0 <= k < i ==> s[k] !in stops
    requires i < |s| ==> s[i] in stops
    ensures FindFirst(s, stops) == i
  {
  }

  /** Index of the last '/' in `s`, or -1 when there is none. */
  function LastSlash(s: string): (i: int)
    ensures -1 <= i < |s|
    ensures i >= 0 ==> s[i] == '/'
    ensures forall k :: i < k < |s| ==> s[k] != '/'
  {
    if s == [] then -1
    else if s[|s| - 1] == '/' then |s| - 1
    else LastSlash(s[..|s| - 1])
  }

  /** Everything after the scheme's "://" (the whole string when there is none). */
  function AfterScheme(url: string): string {
    var c := FindFirst(url, {':'});
    if c + 3 <= |url| && url[c..c + 3] == "://" then url[c + 3..] else url
  }

  /** `uri.AbsolutePath`, before escaping and dot-segment normalisation. */
  function PathOf(url: string): (p: string)
    ensures |p| >= 1 && p[0] == '/'
  {
    var rest := AfterScheme(url);
    var afterAuthority := rest[FindFirst(rest, {'/', '?', '#'})..];
    var path := afterAuthority[..FindFirst(afterAuthority, {'?', '#'})];
    if path == "" then "/" else path
  }

  /** `uri.Segments.Last()`: the piece after the last '/' that is not the path's final character,
      keeping a trailing '/', or "/" itself for the root path. */
  function LastSegment(path: string): string {
    if |path| > 0 && path[|path| - 1] == '/' then
      var q := path[..|path| - 1];
      q[LastSlash(q) + 1..] + "/"
    else
      path[LastSlash(path) + 1..]
  }

  /** `uri.Segments.Last().Trim('/')`: the resource name the cache classifies a URL by. */
  function Route(url: string): string {
    Text.Trim(LastSegment(PathOf(url)), {'/'})
  }

  /** Nothing after the last '/' is a '/'. */
  lemma {:induction false} AfterLastSlash(s: string)
    ensures var i := LastSlash(s) + 1; forall k :: 0 <= k < |s| - i ==> s[i..][k] != '/'
  {
    var i := LastSlash(s) + 1;
    forall k | 0 <= k < |s| - i ensures s[i..][k] != '/' {
      assert s[i..][k] == s[i + k];
    }
  }

  /** A last segment holds a '/' at most as its final character. */
  lemma {:induction false} LastSegmentSlashes(path: string)
    ensures var seg := LastSegment(path); forall k :: 0 <= k < |seg| - 1 ==> seg[k] != '/'
  {
    if |path| > 0 && path[|path| - 1] == '/' {
      var q := path[..|path| - 1];
      var tail := q[LastSlash(q) + 1..];
      AfterLastSlash(q);
      assert LastSegment(path) == tail + "/";
    } else {
      AfterLastSlash(path);
    }
  }

  /** The route is a single name: it never contains a '/'. */
  lemma {:induction false} RouteHasNoSlash(url: string)
    ensures '/' !in Route(url)
  {
    LastSegmentSlashes(PathOf(url));
    TrimmedSegmentHasNoSlash(LastSegment(PathOf(url)));
  }

  /** Trimming '/' off a string whose only possible '/' is its last character leaves none. */
  lemma {:induction false} TrimmedSegmentHasNoSlash(seg: string)
    requires forall k :: 0 <= k < |seg| - 1 ==> seg[k] != '/'
    ensures '/' !in Text.Trim(seg, {'/'})
  {
    var r := Text.Trim(seg, {'/'});
    Text.TrimIsInfix(seg, {'/'});
    Text.TrimEndsKept(seg, {'/'});
    var i := |seg| - |Text.TrimStart(seg, {'/'})|;
    forall k | 0 <= k < |r| ensures r[k] != '/' {
      if k < |r| - 1 {
        assert r[k] == seg[i + k];
      }
    }
  }

  /** `LastSlash` is pinned down by its contract. */
  lemma LastSlashUnique(s: string, i: nat)
    requires i < |s| && s[i] == '/'
    requires forall k :: i < k < |s| ==> s[k] != '/'
    ensures LastSlash(s) == i
  {
  }

  /** The path of `scheme://host` + `path` is `path`. */
  lemma {:induction false} PathOfParts(scheme: string, host: string, path: string)
    requires ':' !in scheme
    requires '/' !in host && '?' !in host && '#' !in host
    requires |path| > 0 && path[0] == '/' && NoQuery(path)
    ensures PathOf(scheme + "://" + host + path) == path
  {
    var url := scheme + "://" + (host + path);
    assert scheme + "://" + host + path == url;
    FindFirstUnique(url, {':'}, |scheme|);
    assert url[|scheme|..|scheme| + 3] == "://";
    var rest := host + path;
    assert AfterScheme(url) == rest;
    assert rest[|host|] == '/';
    FindFirstUnique(rest, {'/', '?', '#'}, |host|);
    assert rest[|host|..] == path;
    FindFirstUnique(path, {'?', '#'}, |path|);
  }

  /** The last segment of `dir/name` is `name`. */
  lemma {:induction false} LastSegmentOfParts(dir: string, name: string)
    requires '/' !in name && name != []
    ensures LastSegment(dir + "/" + name) == name
  {
    var path := dir + "/" + name;
    assert path[|path| - 1] == name[|name| - 1];
    forall k | |dir| < k < |path| ensures path[k] != '/' {
      assert path[k] == name[k - |dir| - 1];
    }
    LastSlashUnique(path, |dir|);
    assert path[|dir| + 1..] == name;
  }

  /** A URL `scheme://host/dir.../name` is classified by `name`. */
  lemma {:induction false} RouteOfParts(scheme: string, host: string, dir: string, name: string)
    requires ':' !in scheme
    requires '/' !in host && '?' !in host && '#' !in host
    requires |dir| > 0 ==> dir[0] == '/'
    requires NoQuery(dir) && NoQuery(name) && '/' !in name && name != []
    ensures Route(scheme + "://" + host + dir + "/" + name) == name
  {
    var path := dir + "/" + name;
    assert scheme + "://" + host + dir + "/" + name == scheme + "://" + host + path;
    NoQueryConcat(dir, "/");
    NoQueryConcat(dir + "/", name);
    PathOfParts(scheme, host, path);
    LastSegmentOfParts(dir, name);
    assert name[0] in name && name[|name| - 1] in name;
    Text.TrimUntouched(name, {'/'});
  }

  /** ... and so is `scheme://host/dir.../name?query`, whatever the query. */
  lemma {:induction false} RouteOfPartsWithQuery(scheme: string, host: string, dir: string, name: string, q: string)
    requires ':' !in scheme
    requires '/' !in host && '?' !in host && '#' !in host
    requires |dir| > 0 ==> dir[0] == '/'
    requires NoQuery(scheme) && NoQuery(dir) && NoQuery(name) && '/' !in name && name != []
    ensures Route(scheme + "://" + host + dir + "/" + name + "?" + q) == name
  {
    var u := scheme + "://" + host + dir + "/" + name;
    RouteOfParts(scheme, host, dir, name);
    PartsHaveSchemeNoQuery(scheme, host, dir, name);
    RouteIgnoresQuery(u, q);
  }

  /** `scheme://host/dir.../name` has a ':' and, its pieces having none, no query. */
  lemma {:induction false} PartsHaveSchemeNoQuery(scheme: string, host: string, dir: string, name: string)
    requires '?' !in host && '#' !in host
    requires NoQuery(scheme) && NoQuery(dir) && NoQuery(name)
    ensures var u := scheme + "://" + host + dir + "/" + name; ':' in u && NoQuery(u)
  {
    var u := scheme + "://" + host + dir + "/" + name;
    assert u == scheme + ("://" + (host + dir + "/" + name));
    assert u[|scheme|] == ':';
    NoQueryChars(host);
    NoQueryConcat(scheme, "://");
    NoQueryConcat(scheme + "://", host);
    NoQueryConcat(scheme + "://" + host, dir);
    NoQueryConcat(scheme + "://" + host + dir, "/");
    NoQueryConcat(scheme + "://" + host + dir + "/", name);
  }

  /** A string with no '?' and no '#': a URL before its query and fragment. */
  predicate NoQuery(s: string) {
    forall k :: 0 <= k < |s| ==> s[k] != '?' && s[k] != '#'
  }

  /** Joining two pieces without query gives a piece without query. */
  lemma {:induction false} NoQueryConcat(a: string, b: string)
    requires NoQuery(a) && NoQuery(b)
    ensures NoQuery(a + b)
  {
    forall k | 0 <= k < |a + b| ensures (a + b)[k] != '?' && (a + b)[k] != '#' {
      if k >= |a| { assert (a + b)[k] == b[k - |a|]; }
    }
  }

  /** A string holding neither '?' nor '#' has no query. */
  lemma {:induction false} NoQueryChars(s: string)
    requires '?' !in s && '#' !in s
    ensures NoQuery(s)
  {
    forall k | 0 <= k < |s| ensures s[k] != '?' && s[k] != '#' {
      assert s[k] in s;
    }
  }

  /** Searching `a + b` finds a stop character of `a` when there is one, else looks into `b`. */
  lemma {:induction false} FindFirstAppend(a: string, b: string, stops: set<char>)
    ensures FindFirst(a + b, stops) ==
      if FindFirst(a, stops) < |a| then FindFirst(a, stops) else |a| + FindFirst(b, stops)
  {
    var s := a + b;
    var i := FindFirst(a, stops);
    if i < |a| {
      FindFirstUnique(s, stops, i);
    } else {
      var j := FindFirst(b, stops);
      forall k | 0 <= k < |a| + j ensures s[k] !in stops {
        if k >= |a| { assert s[k] == b[k - |a|]; }
      }
      FindFirstUnique(s, stops, |a| + j);
    }
  }

  /** A piece of a URL without query is itself without query. */
  lemma {:induction false} NoQuerySuffix(u: string, i: nat)
    requires NoQuery(u) && i <= |u|
    ensures NoQuery(u[i..])
  {
    forall k | 0 <= k < |u| - i ensures u[i..][k] != '?' && u[i..][k] != '#' {
      assert u[i..][k] == u[i + k];
    }
  }

  /** Appending a query keeps the scheme separator where it was. */
  lemma {:induction false} AfterSchemeAppend(u: string, t: string)
    requires ':' in u && NoQuery(u) && |t| > 0 && t[0] == '?'
    ensures AfterScheme(u + t) == AfterScheme(u) + t
    ensures NoQuery(AfterScheme(u))
  {
    var colon := FindFirst(u, {':'});
    FindFirstAppend(u, t, {':'});
    var w :| 0 <= w < |u| && u[w] == ':';
    assert colon < |u|;
    if colon + 3 <= |u| && u[colon..colon + 3] == "://" {
      AfterSchemeAppendSeparated(u, t, colon);
    } else {
      SchemeSeparatorNotAcrossQuery(u, t, colon);
    }
  }

  /** The case where `u` has "://" at its first ':'. */
  lemma {:induction false} AfterSchemeAppendSeparated(u: string, t: string, colon: nat)
    requires NoQuery(u) && colon == FindFirst(u, {':'}) == FindFirst(u + t, {':'})
    requires colon + 3 <= |u| && u[colon..colon + 3] == "://"
    ensures AfterScheme(u + t) == AfterScheme(u) + t
    ensures NoQuery(AfterScheme(u))
  {
    var v := u + t;
    assert v[colon..colon + 3] == u[colon..colon + 3];
    SuffixOfAppend(u, t, colon + 3);
    NoQuerySuffix(u, colon + 3);
  }

  /** Cutting a prefix off `u + t` within `u` cuts it off `u`. */
  lemma {:induction false} SuffixOfAppend(u: string, t: string, i: nat)
    requires i <= |u|
    ensures (u + t)[i..] == u[i..] + t
  {
    var v := u + t;
    forall k | 0 <= k < |v| - i ensures v[i..][k] == (u[i..] + t)[k] {
      if k < |u| - i {
        assert v[i..][k] == u[i + k];
      } else {
        assert v[i..][k] == t[k - (|u| - i)];
      }
    }
  }

  /** The text at `colon` reads "://" in `u + t` only if it already does in `u`. */
  lemma {:induction false} SchemeSeparatorNotAcrossQuery(u: string, t: string, colon: nat)
    requires colon < |u| && |t| > 0 && t[0] == '?'
    requires !(colon + 3 <= |u| && u[colon..colon + 3] == "://")
    ensures !(colon + 3 <= |u + t| && (u + t)[colon..colon + 3] == "://")
  {
    var v := u + t;
    if colon + 3 <= |u| {
      assert v[colon..colon + 3] == u[colon..colon + 3];
    } else if colon + 3 <= |v| {
      assert v[colon..colon + 3][|u| - colon] == t[0];
    }
  }

  /** Appending a query keeps the authority's end where it was. */
  lemma {:induction false} AfterAuthorityAppend(r: string, t: string)
    requires NoQuery(r) && |t| > 0 && t[0] == '?'
    ensures var stops := {'/', '?', '#'};
      (r + t)[FindFirst(r + t, stops)..] == r[FindFirst(r, stops)..] + t
      && NoQuery(r[FindFirst(r, stops)..])
  {
    var stops := {'/', '?', '#'};
    FindFirstAppend(r, t, stops);
    assert FindFirst(t, stops) == 0;
    NoQuerySuffix(r, FindFirst(r, stops));
  }

  /** Appending a query does not lengthen the path. */
  lemma {:induction false} PathPartAppend(a: string, t: string)
    requires NoQuery(a) && |t| > 0 && t[0] == '?'
    ensures a[..FindFirst(a, {'?', '#'})] == a
    ensures (a + t)[..FindFirst(a + t, {'?', '#'})] == a
  {
    FindFirstUnique(a, {'?', '#'}, |a|);
    FindFirstAppend(a, t, {'?', '#'});
    assert FindFirst(t, {'?', '#'}) == 0;
  }

  /** The query string (and fragment) never reach the path: for a URL `u` with a scheme and
      without a query, `u + "?" + q` has the same path, whatever `q` holds. */
  lemma {:induction false} PathIgnoresQuery(u: string, q: string)
    requires ':' in u && NoQuery(u)
    ensures PathOf(u + "?" + q) == PathOf(u)
  {
    var t := "?" + q;
    assert u + "?" + q == u + t;
    AfterSchemeAppend(u, t);
    var rest := AfterScheme(u);
    AfterAuthorityAppend(rest, t);
    var a := rest[FindFirst(rest, {'/', '?', '#'})..];
    var restV := AfterScheme(u + t);
    var aV := restV[FindFirst(restV, {'/', '?', '#'})..];
    assert aV == a + t;
    PathPartAppend(a, t);
    assert aV[..FindFirst(aV, {'?', '#'})] == a;
  }

  /** Classification therefore ignores the query string too. */
  lemma {:induction false} RouteIgnoresQuery(u: string, q: string)
    requires ':' in u && NoQuery(u)
    ensures Route(u + "?" + q) == Route(u)
  {
    PathIgnoresQuery(u, q);
  }
}
