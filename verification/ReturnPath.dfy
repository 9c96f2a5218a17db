/**
 * The return_to round trip: RequireAuth prints the requested target into the
 * login link, LoginStart parses it back out of the query string, and
 * safeReturnPath decides whether the callback may redirect to it
 * (app/repository/middleware.go, app/handlers/auth.go).
 *
 * Strings are byte strings, as in Go. Escape and Values follow net/url, which
 * implements sections 2.1 and 2.3 of RFC 3986 for query components.
 */
module ReturnPath {
  import opened Prelude

  // ---- net/url.QueryEscape ----

  predicate Unreserved(c: Octet) {
    || 'a' <= c <= 'z' || 'A' <= c <= 'Z' || '0' <= c <= '9'
    || c == '-' || c == '_' || c == '.' || c == '~'
  }

  function HexDigit(n: nat): Octet
    requires n < 16
  {
    if n < 10 then ('0' as int + n) as char else ('A' as int + n - 10) as char
  }

  function EscapeOctet(c: Octet): Bytes {
    if Unreserved(c) then [c]
    else if c == ' ' then ['+']
    else ['%', HexDigit(c as int / 16), HexDigit(c as int % 16)]
  }

  function Escape(s: Bytes): Bytes {
    if s == [] then [] else EscapeOctet(s[0]) + Escape(s[1..])
  }

  // ---- net/url.QueryUnescape ----

  function FromHexDigit(c: Octet): Option<nat> {
    if '0' <= c <= '9' then Some(c as int - '0' as int)
    else if 'a' <= c <= 'f' then Some(c as int - 'a' as int + 10)
    else if 'A' <= c <= 'F' then Some(c as int - 'A' as int + 10)
    else None
  }

  // The byte coded by the two digits after a percent sign.
  function Coded(s: Bytes): (c: Option<Octet>)
    ensures c.Some? ==> |s| >= 3 && FromHexDigit(s[1]).Some? && FromHexDigit(s[2]).Some?
  {
    if |s| < 3 then None
    else
      match (FromHexDigit(s[1]), FromHexDigit(s[2]))
      case (Some(hi), Some(lo)) =>
        HexBelow16(s[1]);
        HexBelow16(s[2]);
        Some((16 * hi + lo) as char)
      case _ => None
  }

  lemma HexBelow16(c: Octet)
    ensures FromHexDigit(c).Some? ==> FromHexDigit(c).value < 16
  {
  }

  function Unescape(s: Bytes): Option<Bytes> {
    if s == [] then Some([])
    else if s[0] == '%' then
      match Coded(s)
      case None => None
      case Some(c) =>
        match Unescape(s[3..])
        case None => None
        case Some(rest) => Some([c] + rest)
    else
      match Unescape(s[1..])
      case None => None
      case Some(rest) => Some([if s[0] == '+' then ' ' else s[0]] + rest)
  }

  lemma HexRoundTrip(n: nat)
    requires n < 16
    ensures FromHexDigit(HexDigit(n)) == Some(n)
  {
  }

  // The digits are those of the standard, printed as capitals and read in both cases.
  lemma HexDigitIs(n: nat)
    requires n < 16
    ensures HexDigit(n) == "0123456789ABCDEF"[n]
    ensures FromHexDigit("0123456789ABCDEF"[n]) == Some(n) && FromHexDigit("0123456789abcdef"[n]) == Some(n)
  {
  }

  // Letters, digits and four marks stand for themselves, a blank is a plus sign,
  // and every other byte is its code.
  lemma EscapeOctetIs(c: Octet)
    ensures var text, code := EscapeOctet(c), c as int;
            if 'a' <= c <= 'z' || 'A' <= c <= 'Z' || '0' <= c <= '9' || c in "-_.~" then text == [c]
            else if c == ' ' then text == "+"
            else text == ['%', "0123456789ABCDEF"[code / 16], "0123456789ABCDEF"[code % 16]]
  {
    HexDigitIs(c as int / 16);
    HexDigitIs(c as int % 16);
  }

  lemma CodedEscape(c: Octet, rest: Bytes)
    requires !Unreserved(c) && c != ' '
    ensures Coded(EscapeOctet(c) + rest) == Some(c)
  {
    HexRoundTrip(c as int / 16);
    HexRoundTrip(c as int % 16);
  }

  // Parsing undoes printing, for every byte string.
  lemma {:induction false} UnescapeEscape(s: Bytes)
    ensures Unescape(Escape(s)) == Some(s)
  {
    if s != [] {
      UnescapeEscape(s[1..]);
      assert s == [s[0]] + s[1..];
      var head, rest := EscapeOctet(s[0]), Escape(s[1..]);
      assert Escape(s) == head + rest;
      if Unreserved(s[0]) || s[0] == ' ' {
        assert (head + rest)[1..] == rest;
      } else {
        CodedEscape(s[0], rest);
        assert (head + rest)[3..] == rest;
      }
    }
  }

  // ---- net/url.ParseQuery and Values.Get ----

  function Cut(s: Bytes, sep: Octet): (r: (Bytes, Bytes))
    ensures sep !in r.0
    ensures s == r.0 + (if sep in s then [sep] + r.1 else []) && (sep !in s ==> r.1 == [])
  {
    if s == [] then ([], [])
    else if s[0] == sep then ([], s[1..])
    else
      var (before, after) := Cut(s[1..], sep);
      ([s[0]] + before, after)
  }

  // The key and value of one segment; segments that do not parse are dropped.
  function Pair(segment: Bytes): Option<(Bytes, Bytes)> {
    if ';' in segment || segment == [] then None
    else
      var (key, value) := Cut(segment, '=');
      match (Unescape(key), Unescape(value))
      case (Some(k), Some(v)) => Some((k, v))
      case _ => None
  }

  // The pairs of a query string, in order.
  function ParseQuery(query: Bytes): seq<(Bytes, Bytes)>
    decreases |query|
  {
    if query == [] then []
    else
      var (segment, rest) := Cut(query, '&');
      (match Pair(segment)
       case None => []
       case Some(p) => [p]) + ParseQuery(rest)
  }

  // The first value of the key, or the empty string.
  function Get(pairs: seq<(Bytes, Bytes)>, key: Bytes): Bytes {
    if pairs == [] then []
    else if pairs[0].0 == key then pairs[0].1
    else Get(pairs[1..], key)
  }

  // No byte that separates segments or keys survives escaping.
  lemma {:induction false} EscapeHasNoSeparators(s: Bytes)
    ensures forall c | c in Escape(s) :: Unreserved(c) || c == '+' || c == '%'
    ensures '&' !in Escape(s) && ';' !in Escape(s) && '=' !in Escape(s)
  {
    if s != [] {
      EscapeHasNoSeparators(s[1..]);
      forall c | c in EscapeOctet(s[0])
        ensures Unreserved(c) || c == '+' || c == '%'
      {
        if !Unreserved(s[0]) && s[0] != ' ' {
          assert c == '%' || c == HexDigit(s[0] as int / 16) || c == HexDigit(s[0] as int % 16);
        }
      }
    }
  }

  lemma {:induction false} CutAt(before: Bytes, sep: Octet, after: Bytes)
    requires sep !in before
    ensures Cut(before + [sep] + after, sep) == (before, after)
  {
    var s := before + [sep] + after;
    if before == [] {
      assert s[1..] == after;
    } else {
      CutAt(before[1..], sep, after);
      assert s[1..] == before[1..] + [sep] + after;
      assert before == [before[0]] + before[1..];
    }
  }

  lemma {:induction false} CutNone(s: Bytes, sep: Octet)
    requires sep !in s
    ensures Cut(s, sep) == (s, [])
  {
    if s != [] {
      CutNone(s[1..], sep);
      assert s == [s[0]] + s[1..];
    }
  }

  function Printed(key: Bytes, value: Bytes): Bytes {
    key + ['='] + Escape(value)
  }

  // A key that needs no escaping.
  predicate PlainKey(key: Bytes) {
    key != [] && forall c | c in key :: Unreserved(c)
  }

  lemma PairOfPrinted(key: Bytes, value: Bytes)
    requires PlainKey(key)
    ensures Pair(Printed(key, value)) == Some((key, value)) && '&' !in Printed(key, value)
  {
    EscapeHasNoSeparators(value);
    assert '=' !in key && '&' !in key && ';' !in key by {
      assert !Unreserved('=') && !Unreserved('&') && !Unreserved(';');
    }
    CutAt(key, '=', Escape(value));
    UnescapeEscape(value);
    PlainUnescape(key);
  }

  // The rest of a query string: nothing, or more segments.
  function Followed(rest: Option<Bytes>): Bytes {
    match rest
    case None => []
    case Some(more) => ['&'] + more
  }

  // A printed pair is read back whatever else follows it in the query string.
  lemma GetPrinted(key: Bytes, value: Bytes, rest: Option<Bytes>)
    requires PlainKey(key)
    ensures Get(ParseQuery(Printed(key, value) + Followed(rest)), key) == value
  {
    var segment := Printed(key, value);
    var query := segment + Followed(rest);
    PairOfPrinted(key, value);
    match rest {
      case None =>
        assert query == segment;
        CutNone(segment, '&');
      case Some(more) =>
        assert query == segment + ['&'] + more;
        CutAt(segment, '&', more);
    }
    assert ParseQuery(query)[0] == (key, value);
  }

  // A segment that does not parse is as good as absent.
  lemma BadSegmentIsSkipped(segment: Bytes, rest: Bytes)
    requires '&' !in segment
    requires segment == [] || ';' in segment
             || Unescape(Cut(segment, '=').0) == None || Unescape(Cut(segment, '=').1) == None
    ensures ParseQuery(segment + ['&'] + rest) == ParseQuery(rest)
  {
    CutAt(segment, '&', rest);
    assert [] + ParseQuery(rest) == ParseQuery(rest);
  }

  // Alone in a query string, the pair is all there is.
  lemma PrintedAlone(key: Bytes, value: Bytes)
    requires PlainKey(key)
    ensures ParseQuery(Printed(key, value)) == [(key, value)]
  {
    PairOfPrinted(key, value);
    CutNone(Printed(key, value), '&');
    assert ParseQuery([]) == [];
  }

  lemma {:induction false} PlainUnescape(s: Bytes)
    requires forall c | c in s :: Unreserved(c)
    ensures Unescape(s) == Some(s)
  {
    if s != [] {
      PlainUnescape(s[1..]);
      assert Unreserved(s[0]);
      assert s == [s[0]] + s[1..];
    }
  }

  // ---- The handlers ----

  const RETURN_TO: Bytes := "return_to"

  // The query string of the login link that RequireAuth redirects to.
  function LoginQuery(target: Bytes): Bytes {
    Printed(RETURN_TO, target)
  }

  lemma LoginQueryIs(target: Bytes)
    ensures LoginQuery(target) == "return_to=" + Escape(target)
  {
    assert RETURN_TO + ['='] == "return_to=";
  }

  // What safeReturnPath lets pass: one leading slash, not two, and no backslash.
  predicate Safe(path: Bytes) {
    && path != [] && path[0] == '/'
    && (|path| > 1 ==> path[1] != '/')
    && '\\' !in path
  }

  predicate HasPrefix(s: Bytes, prefix: Bytes) {
    prefix <= s
  }

  // Everything that is not a same-site absolute path becomes the empty string.
  function SafeReturnPath(path: Bytes): Bytes {
    if !HasPrefix(path, "/") || HasPrefix(path, "//") || '\\' in path then [] else path
  }

  lemma SafeReturnPathIs(path: Bytes)
    ensures SafeReturnPath(path) == if Safe(path) then path else []
  {
    assert HasPrefix(path, "/") <==> path != [] && path[0] == '/';
    assert HasPrefix(path, "//") <==> |path| > 1 && path[0] == '/' && path[1] == '/';
  }

  // What LoginStart stores for the callback.
  function StoredReturn(query: Bytes): Bytes {
    SafeReturnPath(Get(ParseQuery(query), RETURN_TO))
  }

  const DASHBOARD: Bytes := "/dashboard"
  const WELCOME: Bytes := "/welcome"

  // Where a successful callback redirects. `noWatches` says that the API is
  // configured, gave out an access token and listed no watches.
  function Destination(plan: Bytes, returnTo: Bytes, noWatches: bool): Bytes {
    if plan != [] then WELCOME + "?plan=" + plan
    else if returnTo != [] then returnTo
    else if noWatches then WELCOME
    else DASHBOARD
  }

  lemma Constants()
    ensures PlainKey(RETURN_TO) && Safe(DASHBOARD) && Safe(WELCOME) && Safe(WELCOME + "?plan=" + "pro")
  {
    assert WELCOME + "?plan=" + "pro" == "/welcome?plan=pro";
  }

  // The path handed to http.Redirect is the target that RequireAuth wrote exactly
  // when that is a safe path, whatever the rest of the login query says.
  lemma HandsOnTarget(target: Bytes, rest: Option<Bytes>, noWatches: bool)
    ensures Destination([], StoredReturn(LoginQuery(target) + Followed(rest)), noWatches) == target <==> Safe(target)
    ensures Safe(target) <==> target != [] && target[0] == '/' && !(|target| > 1 && target[1] == '/') && '\\' !in target
  {
    Constants();
    GetPrinted(RETURN_TO, target, rest);
    SafeReturnPathIs(target);
  }

  // Whatever the query string, the path handed to http.Redirect is a safe one.
  lemma DestinationIsSafe(query: Bytes, plan: Bytes, noWatches: bool)
    requires plan == [] || plan == "pro"
    ensures Safe(Destination(plan, StoredReturn(query), noWatches))
  {
    Constants();
    SafeReturnPathIs(Get(ParseQuery(query), RETURN_TO));
  }
}
