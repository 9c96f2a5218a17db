/**
 * What becomes of the path that the callback redirects to: net/http.Redirect
 * cleans and escapes it, the header writer puts it on one line, and the browser
 * reads the Location by the WHATWG URL standard and sends the next request
 * (app/repository/middleware.go, app/handlers/auth.go).
 */
module Redirects {
  import opened Prelude
  import opened ReturnPath

  const TAB: Octet := '\t'
  const LF: Octet := '\n'
  const CR: Octet := '\r'

  predicate Control(c: Octet) {
    c < ' ' || c == '\U{007F}'
  }

  predicate NonAscii(c: Octet) {
    c as int >= 128
  }

  predicate Ascii(s: Bytes) {
    forall c | c in s :: !NonAscii(c)
  }

  function Last(s: Bytes): Octet
    requires s != []
  {
    s[|s| - 1]
  }

  // A path with one leading slash.
  predicate Rooted(url: Bytes) {
    url != [] && url[0] == '/' && (|url| > 1 ==> url[1] != '/')
  }

  // ---- url.PathUnescape ----

  function PathUnescape(s: Bytes): Option<Bytes> {
    if s == [] then Some([])
    else if s[0] == '%' then
      match Coded(s)
      case None => None
      case Some(c) =>
        match PathUnescape(s[3..])
        case None => None
        case Some(rest) => Some([c] + rest)
    else
      match PathUnescape(s[1..])
      case None => None
      case Some(rest) => Some([s[0]] + rest)
  }

  lemma {:induction false} PathUnescapePlain(s: Bytes)
    requires '%' !in s
    ensures PathUnescape(s) == Some(s)
  {
    if s != [] {
      PathUnescapePlain(s[1..]);
      assert s == [s[0]] + s[1..];
    }
  }

  // ---- Path segments ----

  // The parts of a path behind its leading slash.
  function Segments(s: Bytes): (segments: seq<Bytes>)
    ensures segments != []
    decreases |s|
  {
    var (first, rest) := Cut(s, '/');
    if '/' in s then [first] + Segments(rest) else [s]
  }

  function Join(segments: seq<Bytes>): Bytes {
    if segments == [] then []
    else if |segments| == 1 then segments[0]
    else segments[0] + ['/'] + Join(segments[1..])
  }

  lemma {:induction false} JoinSegments(s: Bytes)
    ensures Join(Segments(s)) == s
    decreases |s|
  {
    if '/' in s {
      var (first, rest) := Cut(s, '/');
      JoinSegments(rest);
      JoinCons(first, Segments(rest));
    }
  }

  lemma JoinCons(x: Bytes, segments: seq<Bytes>)
    requires segments != []
    ensures Join([x] + segments) == x + (['/'] + Join(segments))
  {
    assert ([x] + segments)[1..] == segments;
  }

  predicate NoSlash(segments: seq<Bytes>) {
    forall x | x in segments :: '/' !in x
  }

  lemma {:induction false} SegmentsNoSlash(s: Bytes)
    ensures NoSlash(Segments(s))
    decreases |s|
  {
    if '/' in s {
      SegmentsNoSlash(Cut(s, '/').1);
    }
  }

  // The bytes of the segments with a slash each.
  function Total(segments: seq<Bytes>): nat {
    if segments == [] then 0 else |segments[0]| + 1 + Total(segments[1..])
  }

  lemma {:induction false} JoinLength(segments: seq<Bytes>)
    requires segments != []
    ensures |Join(segments)| == Total(segments) - 1
  {
    if |segments| > 1 {
      JoinLength(segments[1..]);
    }
  }

  lemma {:induction false} TotalAppend(a: seq<Bytes>, b: seq<Bytes>)
    ensures Total(a + b) == Total(a) + Total(b)
  {
    if a == [] {
      assert a + b == b;
    } else {
      TotalAppend(a[1..], b);
      assert (a + b)[1..] == a[1..] + b;
    }
  }

  lemma TotalSnoc(a: seq<Bytes>, x: Bytes)
    ensures Total(a + [x]) == Total(a) + |x| + 1
  {
    TotalAppend(a, [x]);
    assert Total([x]) == |x| + 1;
  }

  lemma TotalPop(a: seq<Bytes>)
    requires a != []
    ensures Total(a[..|a| - 1]) < Total(a)
  {
    TotalSnoc(a[..|a| - 1], a[|a| - 1]);
    assert a == a[..|a| - 1] + [a[|a| - 1]];
  }

  // ---- path.Clean ----

  const DOT: Bytes := "."
  const DOTS: Bytes := ".."

  predicate Ordinary(x: Bytes) {
    x != [] && x != DOT && x != DOTS
  }

  function Push(stack: seq<Bytes>, x: Bytes): seq<Bytes> {
    if x == [] || x == DOT then stack
    else if x == DOTS then if stack == [] then [] else stack[..|stack| - 1]
    else stack + [x]
  }

  // The segments that stay: empty and dot segments go, and a double dot takes
  // the segment before it along.
  function Kept(stack: seq<Bytes>, segments: seq<Bytes>): seq<Bytes>
    decreases |segments|
  {
    if segments == [] then stack else Kept(Push(stack, segments[0]), segments[1..])
  }

  predicate EndsInSlash(s: Bytes) {
    s != [] && Last(s) == '/'
  }

  // path.Clean of a rooted path, with a trailing slash put back.
  function Cleaned(p: Bytes): Bytes
    requires p != [] && p[0] == '/'
  {
    Rebuilt(Kept([], Segments(p[1..])), EndsInSlash(p))
  }

  function Rebuilt(kept: seq<Bytes>, directory: bool): Bytes {
    var c := ['/'] + Join(kept);
    if directory && !EndsInSlash(c) then c + ['/'] else c
  }

  // Nothing for path.Clean to do.
  ghost predicate IsClean(p: Bytes)
    requires p != []
  {
    CleanList(Segments(p[1..]))
  }

  // Every segment but the last is ordinary, and the last is ordinary or empty.
  ghost predicate CleanList(segments: seq<Bytes>)
    requires segments != []
  {
    var last := |segments| - 1;
    AllOrdinary(segments[..last]) && (segments[last] == [] || Ordinary(segments[last]))
  }

  ghost predicate AllOrdinary(segments: seq<Bytes>) {
    forall i | 0 <= i < |segments| :: Ordinary(segments[i])
  }

  lemma PushShort(stack: seq<Bytes>, x: Bytes)
    ensures Total(Push(stack, x)) <= Total(stack) + |x| + 1
    ensures Ordinary(x) ==> Push(stack, x) == stack + [x]
    ensures !Ordinary(x) ==> Total(Push(stack, x)) < Total(stack) + |x| + 1
  {
    TotalSnoc(stack, x);
    if stack != [] {
      TotalPop(stack);
    }
  }

  lemma {:induction false} KeptShort(stack: seq<Bytes>, segments: seq<Bytes>)
    ensures Total(Kept(stack, segments)) <= Total(stack) + Total(segments)
    ensures AllOrdinary(segments) ==> Kept(stack, segments) == stack + segments
    ensures !AllOrdinary(segments) ==> Total(Kept(stack, segments)) < Total(stack) + Total(segments)
    decreases |segments|
  {
    if segments == [] {
      assert stack + segments == stack;
    } else {
      PushShort(stack, segments[0]);
      KeptShort(Push(stack, segments[0]), segments[1..]);
      OrdinaryHead(segments);
      TotalSnoc(stack, segments[0]);
      HeadMoves(stack, segments);
    }
  }

  lemma HeadMoves(stack: seq<Bytes>, segments: seq<Bytes>)
    requires segments != []
    ensures stack + [segments[0]] + segments[1..] == stack + segments
  {
  }

  lemma OrdinaryHead(segments: seq<Bytes>)
    requires segments != []
    ensures AllOrdinary(segments) <==> Ordinary(segments[0]) && AllOrdinary(segments[1..])
  {
    if Ordinary(segments[0]) && AllOrdinary(segments[1..]) {
      forall i | 0 <= i < |segments|
        ensures Ordinary(segments[i])
      {
        assert i > 0 ==> segments[i] == segments[1..][i - 1];
      }
    }
  }

  lemma {:induction false} KeptSnoc(stack: seq<Bytes>, segments: seq<Bytes>, x: Bytes)
    ensures Kept(stack, segments + [x]) == Push(Kept(stack, segments), x)
    decreases |segments|
  {
    if segments == [] {
      assert segments + [x] == [x];
    } else {
      KeptSnoc(Push(stack, segments[0]), segments[1..], x);
      assert (segments + [x])[1..] == segments[1..] + [x];
    }
  }

  // A path ends in a slash exactly when its last segment is empty.
  lemma {:induction false} LastSegment(s: Bytes)
    ensures LastOf(Segments(s)) == [] <==> s == [] || Last(s) == '/'
    decreases |s|
  {
    if '/' in s {
      var (first, rest) := Cut(s, '/');
      LastSegment(rest);
      LastOfCons(first, Segments(rest));
      LastAfterSlash(first, rest);
    } else if s != [] {
      assert Last(s) in s;
    }
  }

  function LastOf(segments: seq<Bytes>): Bytes
    requires segments != []
  {
    segments[|segments| - 1]
  }

  lemma LastOfCons(x: Bytes, segments: seq<Bytes>)
    requires segments != []
    ensures LastOf([x] + segments) == LastOf(segments)
  {
  }

  lemma LastAfterSlash(a: Bytes, b: Bytes)
    ensures Last(a + ['/'] + b) == if b == [] then '/' else Last(b)
  {
  }

  lemma {:induction false} JoinEnds(segments: seq<Bytes>)
    requires segments != [] && NoSlash(segments) && segments[|segments| - 1] != []
    ensures Join(segments) != [] && Last(Join(segments)) != '/'
  {
    if |segments| > 1 {
      assert forall x | x in segments[1..] :: x in segments;
      JoinEnds(segments[1..]);
    } else {
      assert segments[0] in segments;
    }
  }

  // Cleaning never lengthens a path and changes exactly those that are not clean.
  lemma CleanedIs(p: Bytes)
    requires p != [] && p[0] == '/'
    ensures |Cleaned(p)| <= |p|
    ensures IsClean(p) ==> Cleaned(p) == p
    ensures !IsClean(p) ==> |Cleaned(p)| < |p|
  {
    var segments := Segments(p[1..]);
    JoinSegments(p[1..]);
    LastSegment(p[1..]);
    SegmentsNoSlash(p[1..]);
    assert p == ['/'] + p[1..];
    RebuiltIs(segments, EndsInSlash(p));
  }

  lemma RebuiltIs(segments: seq<Bytes>, directory: bool)
    requires segments != [] && NoSlash(segments) && (directory <==> segments[|segments| - 1] == [])
    ensures var p, c := ['/'] + Join(segments), Rebuilt(Kept([], segments), directory);
            |c| <= |p| && (CleanList(segments) ==> c == p) && (!CleanList(segments) ==> |c| < |p|)
  {
    var last := |segments| - 1;
    var init := segments[..last];
    assert segments == init + [segments[last]];
    JoinLength(segments);
    if directory {
      KeptSnoc([], init, []);
      TotalSnoc(init, []);
      RebuiltDirectory(init);
    } else {
      AllOrdinarySnoc(init, segments[last]);
      RebuiltFile(segments);
    }
  }

  lemma AllOrdinarySnoc(segments: seq<Bytes>, x: Bytes)
    ensures AllOrdinary(segments + [x]) <==> AllOrdinary(segments) && Ordinary(x)
  {
    var more := segments + [x];
    assert forall i | 0 <= i < |segments| :: more[i] == segments[i];
    assert more[|segments|] == x;
  }

  lemma RebuiltFile(segments: seq<Bytes>)
    requires segments != [] && segments[|segments| - 1] != []
    ensures var c := Rebuilt(Kept([], segments), false);
            && (AllOrdinary(segments) ==> c == ['/'] + Join(segments))
            && (!AllOrdinary(segments) ==> |c| < Total(segments))
  {
    KeptShort([], segments);
    assert [] + segments == segments;
    var kept := Kept([], segments);
    if kept != [] {
      JoinLength(kept);
    } else {
      LongerThanSlash(segments);
    }
  }

  lemma LongerThanSlash(segments: seq<Bytes>)
    requires segments != [] && segments[|segments| - 1] != []
    ensures Total(segments) > 1
  {
    var last := |segments| - 1;
    TotalSnoc(segments[..last], segments[last]);
    assert segments == segments[..last] + [segments[last]];
  }

  lemma RebuiltDirectory(init: seq<Bytes>)
    requires NoSlash(init)
    ensures var c := Rebuilt(Kept([], init), true);
            && (AllOrdinary(init) ==> c == ['/'] + Join(init + [[]]))
            && (!AllOrdinary(init) ==> |c| < Total(init) + 1)
  {
    KeptShort([], init);
    assert [] + init == init;
    var kept := Kept([], init);
    if AllOrdinary(init) {
      DirectoryStays(init);
    } else if kept != [] {
      JoinLength(kept);
    }
  }

  lemma DirectoryStays(init: seq<Bytes>)
    requires NoSlash(init) && AllOrdinary(init)
    ensures Rebuilt(init, true) == ['/'] + Join(init + [[]])
  {
    if init == [] {
      assert init + [[]] == [[]];
    } else {
      assert Ordinary(init[|init| - 1]);
      JoinEnds(init);
      JoinSnoc(init);
      assert Last(['/'] + Join(init)) == Last(Join(init));
    }
  }

  lemma {:induction false} JoinSnoc(segments: seq<Bytes>)
    requires segments != []
    ensures Join(segments + [[]]) == Join(segments) + ['/']
  {
    if |segments| == 1 {
      assert segments + [[]] == [segments[0], []];
      assert [segments[0], []][1..] == [[]];
    } else {
      JoinSnoc(segments[1..]);
      assert (segments + [[]])[1..] == segments[1..] + [[]];
    }
  }

  // ---- net/http.Redirect ----

  // url.Parse accepts a rooted URL: no control bytes before the fragment, and
  // well-formed escapes in its path and in its fragment.
  predicate Parses(url: Bytes) {
    var (main, fragment) := Cut(url, '#');
    && (forall c | c in main :: !Control(c))
    && PathUnescape(Cut(main, '?').0).Some? && PathUnescape(fragment).Some?
  }

  // The path up to the first question mark is cleaned, if the URL parses.
  function Redirected(url: Bytes): Bytes
    requires Rooted(url)
  {
    if !Parses(url) then url
    else
      var p := Cut(url, '?').0;
      assert url[0] != '?';
      Cleaned(p) + url[|p|..]
  }

  function LowerHexDigit(n: nat): Octet
    requires n < 16
  {
    if n < 10 then ('0' as int + n) as char else ('a' as int + n - 10) as char
  }

  function EscapedByte(c: Octet): Bytes {
    if NonAscii(c) then ['%', LowerHexDigit(c as int / 16), LowerHexDigit(c as int % 16)] else [c]
  }

  // hexEscapeNonASCII
  function Escaped(s: Bytes): Bytes {
    if s == [] then [] else EscapedByte(s[0]) + Escaped(s[1..])
  }

  // The header writer: newlines become spaces, and blanks at the end are cut. A
  // location starts with a slash, so there are none at its start.
  function OneLine(s: Bytes): Bytes {
    if s == [] then [] else [if s[0] == LF || s[0] == CR then ' ' else s[0]] + OneLine(s[1..])
  }

  function Trimmed(s: Bytes): Bytes {
    if s != [] && (Last(s) == ' ' || Last(s) == TAB) then Trimmed(s[..|s| - 1]) else s
  }

  // The Location header that http.Redirect sends.
  function Location(url: Bytes): Bytes
    requires Rooted(url)
  {
    Trimmed(OneLine(Escaped(Redirected(url))))
  }

  // ---- The browser ----

  // Control characters and spaces at the end are cut, then tabs and newlines
  // dropped everywhere.
  function Stripped(s: Bytes): Bytes {
    if s != [] && Last(s) <= ' ' then Stripped(s[..|s| - 1]) else s
  }

  function DropTabs(s: Bytes): Bytes {
    if s == [] then []
    else (if s[0] == TAB || s[0] == LF || s[0] == CR then [] else [s[0]]) + DropTabs(s[1..])
  }

  function Seen(location: Bytes): Bytes {
    DropTabs(Stripped(location))
  }

  // Two leading slashes name another host; a backslash counts as a slash there.
  predicate LeavesSite(location: Bytes) {
    var s := Seen(location);
    |s| > 1 && s[0] == '/' && (s[1] == '/' || s[1] == '\\')
  }

  // The segment is so many dots, some of them spelled %2e.
  predicate IsDots(x: Bytes, n: nat) {
    if n == 0 then x == []
    else
      || (x != [] && x[0] == '.' && IsDots(x[1..], n - 1))
      || (|x| > 2 && x[0] == '%' && x[1] == '2' && (x[2] == 'e' || x[2] == 'E') && IsDots(x[3..], n - 1))
  }

  // Dot segments are resolved and empty segments stay; a dot segment at the end
  // leaves an empty one.
  function WalkOne(stack: seq<Bytes>, x: Bytes, final: bool): seq<Bytes> {
    var end: seq<Bytes> := if final then [[]] else [];
    if IsDots(x, 2) then (if stack == [] then [] else stack[..|stack| - 1]) + end
    else if IsDots(x, 1) then stack + end
    else stack + [x]
  }

  function Walk(stack: seq<Bytes>, segments: seq<Bytes>): seq<Bytes>
    decreases |segments|
  {
    if segments == [] then stack
    else Walk(WalkOne(stack, segments[0], |segments| == 1), segments[1..])
  }

  function Resolved(p: Bytes): Bytes {
    if p == [] then [] else ['/'] + Join(Walk([], Segments(p[1..])))
  }

  // The path percent-encode set and the special-query percent-encode set.
  predicate InPathSet(c: Octet) {
    c <= ' ' || c as int >= 127 || c in {'"', '<', '>', '^', '`', '{', '}'}
  }

  predicate InQuerySet(c: Octet) {
    c <= ' ' || c as int >= 127 || c in {'"', '#', '<', '>', '\''}
  }

  function PercentEncoded(c: Octet): Bytes {
    ['%', HexDigit(c as int / 16), HexDigit(c as int % 16)]
  }

  function EncodedPath(s: Bytes): Bytes {
    if s == [] then [] else (if InPathSet(s[0]) then PercentEncoded(s[0]) else [s[0]]) + EncodedPath(s[1..])
  }

  function EncodedQuery(s: Bytes): Bytes {
    if s == [] then [] else (if InQuerySet(s[0]) then PercentEncoded(s[0]) else [s[0]]) + EncodedQuery(s[1..])
  }

  // Path and query of the request that the browser sends to this site for a
  // location; the fragment stays in the browser.
  function RequestFor(location: Bytes): Option<(Bytes, Bytes)> {
    if LeavesSite(location) then None
    else
      var (p, q) := Cut(Cut(Seen(location), '#').0, '?');
      Some((EncodedPath(Resolved(p)), EncodedQuery(q)))
  }
}
