/**
 * The way back after a sign-in: from the target that RequireAuth writes into the
 * login link to the Location of the callback and the request the browser sends
 * (app/repository/middleware.go, app/handlers/auth.go).
 */
module ReturnTrip {
  import opened Prelude
  import opened ReturnPath
  import opened Redirects

  // ---- Cutting ----

  lemma {:induction false} CutBound(s: Bytes, c: Octet, k: nat)
    requires k < |s| && s[k] == c
    ensures |Cut(s, c).0| <= k
  {
    if s[0] != c {
      CutBound(s[1..], c, k - 1);
    }
  }

  lemma {:induction false} CutOfPrefix(u: Bytes, s: Bytes, c: Octet)
    requires u <= s
    ensures |Cut(u, c).0| <= |Cut(s, c).0|
  {
    if u != [] && u[0] != c {
      assert u[1..] <= s[1..];
      CutOfPrefix(u[1..], s[1..], c);
    }
  }

  lemma CutCons(b: Octet, rest: Bytes, c: Octet)
    requires b != c
    ensures Cut([b] + rest, c) == ([b] + Cut(rest, c).0, Cut(rest, c).1)
  {
    assert ([b] + rest)[1..] == rest;
  }

  lemma {:induction false} CutBehind(x: Bytes, rest: Bytes, c: Octet)
    requires c !in x
    ensures Cut(x + rest, c) == (x + Cut(rest, c).0, Cut(rest, c).1)
  {
    if x == [] {
      assert x + rest == rest && x + Cut(rest, c).0 == Cut(rest, c).0;
    } else {
      assert x[0] in x && forall b | b in x[1..] :: b in x;
      CutBehind(x[1..], rest, c);
      CutCons(x[0], x[1..] + rest, c);
      ConsAssociates(x, rest);
      ConsAssociates(x, Cut(rest, c).0);
    }
  }

  lemma ConsAssociates(x: Bytes, y: Bytes)
    requires x != []
    ensures x + y == [x[0]] + (x[1..] + y)
  {
  }

  // ---- What http.Redirect does to a URL ----

  lemma RedirectedIs(url: Bytes)
    requires Rooted(url)
    ensures |Redirected(url)| <= |url| && Redirected(url) != [] && Redirected(url)[0] == '/'
    ensures PathBefore(url) != [] && PathBefore(url)[0] == '/'
    ensures Parses(url) && !IsClean(PathBefore(url)) ==> |Redirected(url)| < |url|
    ensures !Parses(url) || IsClean(PathBefore(url)) ==> Redirected(url) == url
  {
    var p := PathBefore(url);
    assert url == p + url[|p|..];
    assert url[0] != '?';
    CleanedIs(p);
  }

  // The part of a URL that path.Clean is applied to.
  function PathBefore(url: Bytes): Bytes {
    Cut(url, '?').0
  }

  // Its path is not longer afterwards, and shorter if there was something to clean.
  lemma RedirectedPath(url: Bytes)
    requires Rooted(url)
    ensures var p, q := PathBefore(url), PathBefore(Redirected(url));
            p != [] && |q| <= |p| && (Parses(url) && !IsClean(p) ==> |q| < |p|)
  {
    RedirectedIs(url);
    if Parses(url) {
      var p := PathBefore(url);
      CleanedIs(p);
      if '?' in url {
        assert Redirected(url)[|Cleaned(p)|] == '?';
        CutBound(Redirected(url), '?', |Cleaned(p)|);
      } else {
        assert Redirected(url) == Cleaned(p) + [];
      }
    }
  }

  // ---- Bytes of a Location ----

  ghost predicate AllAscii(segments: seq<Bytes>) {
    forall x | x in segments :: Ascii(x)
  }

  lemma {:induction false} SegmentsAscii(s: Bytes)
    requires Ascii(s)
    ensures AllAscii(Segments(s))
    decreases |s|
  {
    if '/' in s {
      var (first, rest) := Cut(s, '/');
      assert s == first + ['/'] + rest;
      SegmentsAscii(rest);
    }
  }

  lemma {:induction false} KeptAscii(stack: seq<Bytes>, segments: seq<Bytes>)
    requires AllAscii(stack) && AllAscii(segments)
    ensures AllAscii(Kept(stack, segments))
    decreases |segments|
  {
    if segments != [] {
      KeptAscii(Push(stack, segments[0]), segments[1..]);
    }
  }

  lemma {:induction false} JoinAscii(segments: seq<Bytes>)
    requires AllAscii(segments)
    ensures Ascii(Join(segments))
  {
    if segments != [] {
      assert segments[0] in segments && forall x | x in segments[1..] :: x in segments;
      if |segments| > 1 {
        JoinAscii(segments[1..]);
      }
    }
  }

  lemma RedirectedAscii(url: Bytes)
    requires Rooted(url) && Ascii(url)
    ensures Ascii(Redirected(url))
  {
    var p := PathBefore(url);
    RedirectedIs(url);
    assert url == p + url[|p|..];
    SegmentsAscii(p[1..]);
    KeptAscii([], Segments(p[1..]));
    JoinAscii(Kept([], Segments(p[1..])));
  }

  lemma {:induction false} EscapedAscii(s: Bytes)
    ensures Ascii(Escaped(s)) && (Ascii(s) ==> Escaped(s) == s)
  {
    if s != [] {
      EscapedAscii(s[1..]);
      assert s == [s[0]] + s[1..];
    }
  }

  lemma {:induction false} OneLineIs(s: Bytes)
    ensures |OneLine(s)| == |s|
    ensures forall i | 0 <= i < |s| :: OneLine(s)[i] == if s[i] == LF || s[i] == CR then ' ' else s[i]
  {
    if s != [] {
      OneLineIs(s[1..]);
    }
  }

  lemma {:induction false} TrimmedIs(s: Bytes)
    ensures Trimmed(s) <= s
    ensures Trimmed(s) == s <==> s == [] || (Last(s) != ' ' && Last(s) != TAB)
  {
    if s != [] && (Last(s) == ' ' || Last(s) == TAB) {
      TrimmedIs(s[..|s| - 1]);
    }
  }

  // ---- The final redirect ----

  predicate OnOneLine(s: Bytes) {
    LF !in s && CR !in s
  }

  // Neither http.Redirect nor the header writer has anything to change.
  ghost predicate SentUnchanged(url: Bytes) {
    && url != [] && Ascii(url) && OnOneLine(url) && Last(url) != ' ' && Last(url) != TAB
    && (Parses(url) && PathBefore(url) != [] ==> IsClean(PathBefore(url)))
  }

  lemma OneLineUnchanged(s: Bytes)
    ensures OneLine(s) == s <==> OnOneLine(s)
  {
    OneLineIs(s);
    if OneLine(s) == s {
      forall i | 0 <= i < |s|
        ensures s[i] != LF && s[i] != CR
      {
      }
    }
  }

  lemma LocationUnchanged(url: Bytes)
    requires Rooted(url)
    ensures Location(url) == url <==> SentUnchanged(url)
  {
    var sent := Redirected(url);
    RedirectedIs(url);
    EscapedAscii(sent);
    OneLineIs(Escaped(sent));
    TrimmedIs(OneLine(Escaped(sent)));
    if SentUnchanged(url) {
      OneLineUnchanged(url);
    } else if Location(url) == url {
      LocationAscii(url);
      RedirectedAscii(url);
      assert sent == url;
      OneLineUnchanged(url);
    }
  }

  lemma LocationAscii(url: Bytes)
    requires Rooted(url)
    ensures Ascii(Location(url))
  {
    var escaped := Escaped(Redirected(url));
    EscapedAscii(Redirected(url));
    OneLineIs(escaped);
    TrimmedIs(OneLine(escaped));
    forall c | c in Location(url)
      ensures !NonAscii(c)
    {
      var i :| 0 <= i < |Location(url)| && Location(url)[i] == c;
      assert OneLine(escaped)[i] == c && escaped[i] in escaped;
    }
  }

  // The path that the callback redirects to, for a login link with that query
  // string and no plan pending.
  function AfterLogin(query: Bytes, noWatches: bool): (url: Bytes)
    ensures Rooted(url)
  {
    DestinationIsSafe(query, [], noWatches);
    Destination([], StoredReturn(query), noWatches)
  }

  lemma DefaultUnchanged(url: Bytes)
    requires url == DASHBOARD || url == WELCOME
    ensures Rooted(url) && Location(url) == url
  {
    var name := url[1..];
    assert url == ['/'] + name;
    PlainPath(url, name);
    LocationUnchanged(url);
  }

  predicate Plain(name: Bytes) {
    name != [] && forall i | 0 <= i < |name| :: 'a' <= name[i] <= 'z'
  }

  lemma PlainPath(url: Bytes, name: Bytes)
    requires Plain(name) && url == ['/'] + name
    ensures Rooted(url) && SentUnchanged(url)
  {
    assert url[1..] == name && name[0] in name;
    PlainName(name);
    CutNone(url, '?');
    assert PathBefore(url) == url;
  }

  lemma PlainName(name: Bytes)
    requires Plain(name)
    ensures CleanList(Segments(name)) && '?' !in name
    ensures var url := ['/'] + name; Ascii(url) && OnOneLine(url) && Last(url) > ' '
  {
    assert '/' !in name && Segments(name) == [name];
    assert name[0] != '.';
    assert [name][..0] == [];
  }

  // A visitor sent away by RequireAuth is redirected to the very target it wrote
  // exactly when the target is safe and nothing on the way out changes it,
  // whatever the rest of the login query says.
  lemma ReturnsToTarget(target: Bytes, rest: Option<Bytes>, noWatches: bool)
    ensures Location(AfterLogin(LoginQuery(target) + Followed(rest), noWatches)) == target <==>
            Safe(target) && SentUnchanged(target)
  {
    var url := AfterLogin(LoginQuery(target) + Followed(rest), noWatches);
    HandsOnTarget(target, rest, noWatches);
    if Safe(target) {
      LocationUnchanged(target);
    } else {
      NotSafeIsDefault(target, rest, noWatches);
      DefaultUnchanged(url);
    }
  }

  lemma NotSafeIsDefault(target: Bytes, rest: Option<Bytes>, noWatches: bool)
    requires !Safe(target)
    ensures var url := AfterLogin(LoginQuery(target) + Followed(rest), noWatches); url == DASHBOARD || url == WELCOME
  {
    Constants();
    GetPrinted(RETURN_TO, target, rest);
    SafeReturnPathIs(target);
  }
}
