/**
 * The request that a browser sends for the Location of the callback: when it
 * repeats the request that RequireAuth turned away, and when it goes to another
 * host (app/repository/middleware.go, app/handlers/auth.go).
 */
module NextRequest {
  import opened Prelude
  import opened ReturnPath
  import opened Redirects
  import opened ReturnTrip

  // ---- Escaping commutes with what happens to a Location ----

  lemma EscapedCons(c: Octet, s: Bytes)
    ensures Escaped([c] + s) == EscapedByte(c) + Escaped(s)
  {
    assert ([c] + s)[1..] == s;
  }

  lemma {:induction false} EscapedAppend(a: Bytes, b: Bytes)
    ensures Escaped(a + b) == Escaped(a) + Escaped(b)
  {
    if a == [] {
      assert a + b == b && Escaped(a) + Escaped(b) == Escaped(b);
    } else {
      EscapedAppend(a[1..], b);
      ConsAssociates(a, b);
      EscapedCons(a[0], a[1..] + b);
      Associates(EscapedByte(a[0]), Escaped(a[1..]), Escaped(b));
    }
  }

  lemma Associates(x: Bytes, y: Bytes, z: Bytes)
    ensures x + (y + z) == x + y + z
  {
  }

  lemma EscapedOne(c: Octet)
    ensures Escaped([c]) == EscapedByte(c)
  {
    assert [c][1..] == [] && EscapedByte(c) + [] == EscapedByte(c);
  }

  lemma EscapedSnoc(s: Bytes, c: Octet)
    ensures Escaped(s + [c]) == Escaped(s) + EscapedByte(c)
  {
    EscapedAppend(s, [c]);
    EscapedOne(c);
  }

  // A byte that escaping neither changes nor writes.
  predicate Structural(c: Octet) {
    !NonAscii(c) && c != '%' && !('0' <= c <= '9') && !('a' <= c <= 'f')
  }

  lemma NotWritten(b: Octet, c: Octet)
    requires Structural(c) && b != c
    ensures c !in EscapedByte(b)
  {
  }

  lemma {:induction false} EscapedMember(s: Bytes, c: Octet)
    requires Structural(c)
    ensures c in Escaped(s) <==> c in s
  {
    if s != [] {
      EscapedMember(s[1..], c);
      assert s == [s[0]] + s[1..];
      if s[0] != c {
        NotWritten(s[0], c);
      }
    }
  }

  // Cutting behind a prefix, for two strings at once.
  lemma CutBehindBoth(x: Bytes, s: Bytes, y: Bytes, t: Bytes, c: Octet)
    requires c !in x && c !in y
    ensures Cut(x + s, c) == (x + Cut(s, c).0, Cut(s, c).1)
    ensures Cut(y + t, c) == (y + Cut(t, c).0, Cut(t, c).1)
  {
    CutBehind(x, s, c);
    CutBehind(y, t, c);
  }

  lemma {:induction false} CutEscaped(s: Bytes, c: Octet)
    requires Structural(c)
    ensures Cut(Escaped(s), c) == (Escaped(Cut(s, c).0), Escaped(Cut(s, c).1))
  {
    if s != [] {
      var b, rest := s[0], s[1..];
      assert s == [b] + rest;
      CutEscaped(rest, c);
      EscapedCons(b, rest);
      if b == c {
        assert Escaped(s) == [c] + Escaped(rest);
      } else {
        NotWritten(b, c);
        CutBehindBoth([b], rest, EscapedByte(b), Escaped(rest), c);
        EscapedCons(b, Cut(rest, c).0);
      }
    }
  }

  lemma OneLineAppend(a: Bytes, b: Bytes)
    ensures OneLine(a + b) == OneLine(a) + OneLine(b)
  {
    OneLineIs(a);
    OneLineIs(b);
    OneLineIs(a + b);
  }

  lemma {:induction false} OneLineEscaped(s: Bytes)
    ensures OneLine(Escaped(s)) == Escaped(OneLine(s))
  {
    if s != [] {
      OneLineEscaped(s[1..]);
      OneLineAppend(EscapedByte(s[0]), Escaped(s[1..]));
      OneLineByte(s[0]);
    }
  }

  lemma OneLineByte(c: Octet)
    ensures OneLine(EscapedByte(c)) == EscapedByte(if c == LF || c == CR then ' ' else c)
  {
    OneLineIs(EscapedByte(c));
  }

  lemma {:induction false} StrippedTrimmed(s: Bytes)
    ensures Stripped(Trimmed(s)) == Stripped(s)
  {
    if s != [] && (Last(s) == ' ' || Last(s) == TAB) {
      StrippedTrimmed(s[..|s| - 1]);
    }
  }

  lemma {:induction false} StrippedEscaped(s: Bytes)
    ensures Stripped(Escaped(s)) == Escaped(Stripped(s))
  {
    if s != [] {
      var init := s[..|s| - 1];
      assert s == init + [Last(s)];
      EscapedSnoc(init, Last(s));
      if Last(s) <= ' ' {
        StrippedEscaped(init);
        assert Escaped(s)[..|Escaped(s)| - 1] == Escaped(init);
      } else {
        assert Last(Escaped(s)) == Last(EscapedByte(Last(s)));
      }
    }
  }

  predicate Dropped(c: Octet) {
    c == TAB || c == LF || c == CR
  }

  lemma DropTabsCons(c: Octet, s: Bytes)
    ensures DropTabs([c] + s) == (if Dropped(c) then [] else [c]) + DropTabs(s)
  {
    assert ([c] + s)[1..] == s;
  }

  lemma {:induction false} DropTabsAppend(a: Bytes, b: Bytes)
    ensures DropTabs(a + b) == DropTabs(a) + DropTabs(b)
  {
    if a == [] {
      assert a + b == b && DropTabs(a) + DropTabs(b) == DropTabs(b);
    } else {
      DropTabsAppend(a[1..], b);
      ConsAssociates(a, b);
      DropTabsCons(a[0], a[1..] + b);
      Associates(if Dropped(a[0]) then [] else [a[0]], DropTabs(a[1..]), DropTabs(b));
    }
  }

  lemma {:induction false} NothingDropped(s: Bytes)
    requires forall c | c in s :: !Dropped(c)
    ensures DropTabs(s) == s
  {
    if s != [] {
      assert s[0] in s && forall c | c in s[1..] :: c in s;
      NothingDropped(s[1..]);
      assert s == [s[0]] + s[1..];
    }
  }

  lemma {:induction false} DropTabsEscaped(s: Bytes)
    ensures DropTabs(Escaped(s)) == Escaped(DropTabs(s))
  {
    if s != [] {
      DropTabsEscaped(s[1..]);
      DropTabsAppend(EscapedByte(s[0]), Escaped(s[1..]));
      if Dropped(s[0]) {
        assert EscapedByte(s[0]) == [s[0]] && DropTabs([s[0]]) == DropTabs([s[0]][1..]) == [];
        assert DropTabs(s) == DropTabs(s[1..]);
      } else {
        NothingDropped(EscapedByte(s[0]));
        EscapedCons(s[0], DropTabs(s[1..]));
      }
    }
  }

  // What the browser sees of a Location, before escaping.
  lemma SeenLocation(url: Bytes)
    requires Rooted(url)
    ensures Seen(Location(url)) == Escaped(Seen(OneLine(Redirected(url))))
  {
    var sent := Redirected(url);
    OneLineEscaped(sent);
    StrippedTrimmed(Escaped(OneLine(sent)));
    StrippedEscaped(OneLine(sent));
    DropTabsEscaped(Stripped(OneLine(sent)));
  }

  function EscapedAll(segments: seq<Bytes>): seq<Bytes> {
    seq(|segments|, i requires 0 <= i < |segments| => Escaped(segments[i]))
  }

  lemma EscapedAllAppend(a: seq<Bytes>, b: seq<Bytes>)
    ensures EscapedAll(a + b) == EscapedAll(a) + EscapedAll(b)
  {
  }

  lemma {:induction false} SegmentsEscaped(s: Bytes)
    ensures Segments(Escaped(s)) == EscapedAll(Segments(s))
    decreases |s|
  {
    CutEscaped(s, '/');
    EscapedMember(s, '/');
    if '/' in s {
      var (first, rest) := Cut(s, '/');
      SegmentsEscaped(rest);
      EscapedAllAppend([first], Segments(rest));
      assert EscapedAll([first]) == [Escaped(first)];
    } else {
      assert EscapedAll([s]) == [Escaped(s)];
    }
  }

  lemma {:induction false} JoinEscaped(segments: seq<Bytes>)
    ensures Join(EscapedAll(segments)) == Escaped(Join(segments))
  {
    if |segments| == 1 {
      assert EscapedAll(segments)[0] == Escaped(segments[0]);
    } else if |segments| > 1 {
      var x, rest := segments[0], segments[1..];
      JoinEscaped(rest);
      assert EscapedAll(segments)[1..] == EscapedAll(rest);
      EscapedAppend(x + ['/'], Join(rest));
      EscapedAppend(x, ['/']);
      assert ['/'][1..] == [];
    }
  }

  lemma {:induction false} IsDotsEscaped(x: Bytes, n: nat)
    ensures IsDots(Escaped(x), n) <==> IsDots(x, n)
    decreases n
  {
    if n > 0 && x != [] {
      if x[0] == '.' {
        assert Escaped(x)[1..] == Escaped(x[1..]);
        IsDotsEscaped(x[1..], n - 1);
      } else if x[0] == '%' {
        PercentEscaped(x);
        if |x| > 2 {
          IsDotsEscaped(x[3..], n - 1);
        }
      }
    }
  }

  // A percent sign stays one, and what follows reads the same as far as it is a
  // spelling of a dot.
  lemma PercentEscaped(x: Bytes)
    requires x != [] && x[0] == '%'
    ensures var e, dot := Escaped(x), |x| > 2 && x[1] == '2' && (x[2] == 'e' || x[2] == 'E');
            && e != [] && e[0] == '%'
            && (|e| > 2 && e[1] == '2' && (e[2] == 'e' || e[2] == 'E') <==> dot)
            && (dot ==> e[3..] == Escaped(x[3..]))
  {
    assert Escaped(x) == ['%'] + Escaped(x[1..]);
    if |x| > 1 {
      assert Escaped(x[1..]) == EscapedByte(x[1]) + Escaped(x[2..]);
      assert x[1..][1..] == x[2..];
      if |x| > 2 && x[1] == '2' {
        assert Escaped(x[2..]) == EscapedByte(x[2]) + Escaped(x[3..]);
        assert x[2..][1..] == x[3..];
      }
    }
  }

  lemma {:induction false} WalkEscaped(stack: seq<Bytes>, segments: seq<Bytes>)
    ensures Walk(EscapedAll(stack), EscapedAll(segments)) == EscapedAll(Walk(stack, segments))
    decreases |segments|
  {
    if segments != [] {
      var x := segments[0];
      assert EscapedAll(segments)[0] == Escaped(x) && EscapedAll(segments)[1..] == EscapedAll(segments[1..]);
      IsDotsEscaped(x, 1);
      IsDotsEscaped(x, 2);
      WalkOneEscaped(stack, x, |segments| == 1);
      WalkEscaped(WalkOne(stack, x, |segments| == 1), segments[1..]);
    }
  }

  lemma WalkOneEscaped(stack: seq<Bytes>, x: Bytes, final: bool)
    ensures WalkOne(EscapedAll(stack), Escaped(x), final) == EscapedAll(WalkOne(stack, x, final))
  {
    IsDotsEscaped(x, 1);
    IsDotsEscaped(x, 2);
    assert Escaped([]) == [];
  }

  lemma ResolvedEscaped(p: Bytes)
    requires p != [] && p[0] == '/'
    ensures Resolved(Escaped(p)) == Escaped(Resolved(p))
  {
    assert Escaped(p) == ['/'] + Escaped(p[1..]);
    SegmentsEscaped(p[1..]);
    WalkEscaped([], Segments(p[1..]));
    assert EscapedAll([]) == [];
    var walked := Walk([], Segments(p[1..]));
    JoinEscaped(walked);
    assert (['/'] + Join(walked))[1..] == Join(walked);
  }

  // ---- Resolving dot segments ----

  predicate Dotted(x: Bytes) {
    IsDots(x, 1) || IsDots(x, 2)
  }

  ghost predicate NoDotted(segments: seq<Bytes>) {
    forall i | 0 <= i < |segments| :: !Dotted(segments[i])
  }

  // Nothing for the browser to resolve.
  ghost predicate DotFree(p: Bytes)
    requires p != []
  {
    NoDotted(Segments(p[1..]))
  }

  lemma WalkOneShort(stack: seq<Bytes>, x: Bytes, final: bool)
    ensures Dotted(x) ==> Total(WalkOne(stack, x, final)) < Total(stack) + |x| + 1
    ensures !Dotted(x) ==> WalkOne(stack, x, final) == stack + [x]
    ensures Total(stack + [x]) == Total(stack) + |x| + 1
  {
    TotalSnoc(stack, x);
    if Dotted(x) {
      assert x != [];
      TotalSnoc(stack, []);
      assert stack + [] == stack;
      if stack != [] {
        TotalPop(stack);
        TotalSnoc(stack[..|stack| - 1], []);
        assert stack[..|stack| - 1] + [] == stack[..|stack| - 1];
      }
    }
  }

  lemma NoDottedHead(segments: seq<Bytes>)
    requires segments != []
    ensures NoDotted(segments) <==> !Dotted(segments[0]) && NoDotted(segments[1..])
  {
    if !Dotted(segments[0]) && NoDotted(segments[1..]) {
      forall i | 0 <= i < |segments|
        ensures !Dotted(segments[i])
      {
        assert i > 0 ==> segments[i] == segments[1..][i - 1];
      }
    }
  }

  lemma {:induction false} WalkShort(stack: seq<Bytes>, segments: seq<Bytes>)
    ensures NoDotted(segments) ==> Walk(stack, segments) == stack + segments
    ensures !NoDotted(segments) ==> Total(Walk(stack, segments)) < Total(stack) + Total(segments)
    ensures Total(stack + segments) == Total(stack) + Total(segments)
    decreases |segments|
  {
    TotalAppend(stack, segments);
    if segments == [] {
      assert stack + segments == stack;
    } else {
      var next := WalkOne(stack, segments[0], |segments| == 1);
      WalkOneShort(stack, segments[0], |segments| == 1);
      WalkShort(next, segments[1..]);
      NoDottedHead(segments);
      HeadMoves(stack, segments);
    }
  }

  lemma ResolvedIs(p: Bytes)
    requires p != [] && p[0] == '/'
    ensures DotFree(p) ==> Resolved(p) == p
    ensures !DotFree(p) ==> |Resolved(p)| < |p|
  {
    var segments := Segments(p[1..]);
    JoinSegments(p[1..]);
    JoinLength(segments);
    assert p == ['/'] + p[1..] && [] + segments == segments;
    WalkShort([], segments);
    var walked := Walk([], segments);
    if walked != [] {
      JoinLength(walked);
    } else {
      WalkEnds([], segments);
    }
  }

  // A path never resolves to nothing at all.
  lemma {:induction false} WalkEnds(stack: seq<Bytes>, segments: seq<Bytes>)
    requires segments != []
    ensures Walk(stack, segments) != []
    decreases |segments|
  {
    if |segments| > 1 {
      WalkEnds(WalkOne(stack, segments[0], false), segments[1..]);
    } else {
      assert segments[1..] == [];
    }
  }

  // A double dot takes the segment before it along, for the browser as for
  // path.Clean, and a single dot takes only itself.
  lemma ParentIsTaken(a: Bytes, b: Bytes)
    requires PlainSegment(a) && PlainSegment(b)
    ensures Resolved(['/'] + Join([a, DOTS, b])) == ['/'] + b == Cleaned(['/'] + Join([a, DOTS, b]))
    ensures Resolved(['/'] + Join([a, DOT, b])) == ['/'] + Join([a, b]) == Cleaned(['/'] + Join([a, DOT, b]))
  {
    assert '/' !in a && '/' !in b;
    PlainIsNotDotted(a);
    PlainIsNotDotted(b);
    ThreeAround(a, DOTS, b);
    ThreeAround(a, DOT, b);
    WalkAround(a, DOTS, b);
    WalkAround(a, DOT, b);
    KeptAround(a, DOTS, b);
    KeptAround(a, DOT, b);
    CleanedThree(a, DOTS, b);
    CleanedThree(a, DOT, b);
    assert Join([b]) == b;
  }

  lemma PlainIsNotDotted(x: Bytes)
    requires PlainSegment(x)
    ensures !Dotted(x)
  {
    assert !Unreserved('%');
    DotsAre(x);
  }

  // Without percent signs, dot segments are the two that path.Clean knows.
  lemma DotsAre(x: Bytes)
    requires '%' !in x
    ensures IsDots(x, 1) <==> x == DOT
    ensures IsDots(x, 2) <==> x == DOTS
  {
    DotSpellings();
    if x != [] {
      assert x[0] in x && x == [x[0]] + x[1..];
      assert IsDots(x, 1) <==> x[0] == '.' && IsDots(x[1..], 0);
      if |x| > 1 {
        assert x[1] in x && x[1..] == [x[1]] + x[2..];
        assert IsDots(x[1..], 1) <==> x[1] == '.' && IsDots(x[2..], 0);
      }
    }
  }

  lemma WalkAround(a: Bytes, x: Bytes, b: Bytes)
    requires !Dotted(a) && !Dotted(b) && (x == DOTS || x == DOT)
    ensures Walk([], [a, x, b]) == if x == DOTS then [b] else [a, b]
  {
    assert IsDots(x, 2) <==> x == DOTS by {
      DotSpellings();
    }
    assert IsDots(x, 1) <==> x == DOT by {
      DotSpellings();
    }
    var one, two := WalkOne([], a, false), WalkOne([a], x, false);
    assert one == [a] && [a][..0] == [];
    assert two == if x == DOTS then [] else [a];
    assert [a, x, b][1..] == [x, b] && [x, b][1..] == [b] && [b][1..] == [];
    assert Walk([], [a, x, b]) == Walk([a], [x, b]) == Walk(two, [b]) == Walk(WalkOne(two, b, true), []);
  }

  // A dot may be spelled as its escape, with either digit.
  lemma SpelledDots(dot: Bytes, x: Bytes, n: nat)
    requires dot == "." || dot == "%2e" || dot == "%2E"
    ensures IsDots(dot + x, n + 1) <==> IsDots(x, n)
  {
    if dot == "." {
      assert (dot + x)[1..] == x;
    } else {
      assert (dot + x)[3..] == x;
    }
  }

  lemma DotSpellings()
    ensures IsDots(DOT, 1) && !IsDots(DOT, 2) && IsDots(DOTS, 2) && !IsDots(DOTS, 1)
  {
    assert DOT[1..] == [] && DOTS[1..] == DOT;
    assert IsDots([], 0) && !IsDots(DOT, 0) && !IsDots([], 1);
  }

  lemma KeptAround(a: Bytes, x: Bytes, b: Bytes)
    requires Ordinary(a) && Ordinary(b) && (x == DOTS || x == DOT)
    ensures Kept([], [a, x, b]) == if x == DOTS then [b] else [a, b]
  {
    assert [a, x, b] == [a] + [x] + [b] && [] + [a] == [a] && [a] + [b] == [a, b];
    KeptSnoc([], [a] + [x], b);
    KeptSnoc([], [a], x);
    KeptSnoc([], [], a);
  }

  lemma ThreeAround(a: Bytes, x: Bytes, b: Bytes)
    requires '/' !in a && '/' !in x && '/' !in b
    ensures (['/'] + Join([a, x, b]))[1..] == Join([a, x, b]) && Segments(Join([a, x, b])) == [a, x, b]
  {
    assert [a, x, b] == [a] + ([x] + [b]);
    JoinCons(a, [x] + [b]);
    JoinCons(x, [b]);
    SegmentsAt(a, x + (['/'] + b));
    SegmentsAt(x, b);
    assert Segments(b) == [b];
  }

  lemma CleanedThree(a: Bytes, x: Bytes, b: Bytes)
    requires PlainSegment(b) && '/' !in a && '/' !in x
    ensures var kept := Kept([], [a, x, b]); Cleaned(['/'] + Join([a, x, b])) == ['/'] + Join(kept)
  {
    var path := ['/'] + Join([a, x, b]);
    assert '/' !in b;
    ThreeAround(a, x, b);
    PlainEnd(path, b);
  }

  // ---- Spelling ----

  // The path as it appears in the request when these are its bytes.
  function Spelled(path: Bytes): Bytes {
    EncodedPath(Escaped(path))
  }

  function SpelledByte(c: Octet): Bytes {
    if NonAscii(c) then EscapedByte(c) else if InPathSet(c) then PercentEncoded(c) else [c]
  }

  // Bytes beyond ASCII are spelled by net/http, in small digits; blanks, control
  // bytes and seven marks by the browser, in capitals.
  lemma SpelledIs(c: Octet)
    ensures var text, code := SpelledByte(c), c as int;
            if code >= 128 then text == ['%', "0123456789abcdef"[code / 16], "0123456789abcdef"[code % 16]]
            else if code <= 32 || code == 127 || c in "\"<>^`{}" then
              text == ['%', "0123456789ABCDEF"[code / 16], "0123456789ABCDEF"[code % 16]]
            else text == [c]
  {
    HexDigitIs(c as int / 16);
    HexDigitIs(c as int % 16);
    LowerHexDigitIs(c as int / 16);
    LowerHexDigitIs(c as int % 16);
  }

  lemma LowerHexDigitIs(n: nat)
    requires n < 16
    ensures LowerHexDigit(n) == "0123456789abcdef"[n]
  {
  }

  lemma EncodedPathCons(c: Octet, s: Bytes)
    ensures EncodedPath([c] + s) == (if InPathSet(c) then PercentEncoded(c) else [c]) + EncodedPath(s)
  {
    assert ([c] + s)[1..] == s;
  }

  lemma SpelledCons(c: Octet, s: Bytes)
    ensures Spelled([c] + s) == SpelledByte(c) + Spelled(s)
  {
    EscapedCons(c, s);
    if NonAscii(c) {
      var e := EscapedByte(c);
      EncodedThree(e[0], e[1], e[2], Escaped(s));
      assert e == [e[0], e[1], e[2]];
    } else {
      EncodedPathCons(c, Escaped(s));
    }
  }

  lemma EncodedThree(x: Octet, y: Octet, z: Octet, s: Bytes)
    requires !InPathSet(x) && !InPathSet(y) && !InPathSet(z)
    ensures EncodedPath([x, y, z] + s) == [x, y, z] + EncodedPath(s)
  {
    EncodedPathCons(z, s);
    EncodedPathCons(y, [z] + s);
    EncodedPathCons(x, [y] + ([z] + s));
    assert [x, y, z] + s == [x] + ([y] + ([z] + s));
    assert [x, y, z] + EncodedPath(s) == [x] + ([y] + ([z] + EncodedPath(s)));
  }

  // Decoding undoes the spelling of every byte but the percent sign.
  lemma DecodedByte(c: Octet, rest: Bytes)
    requires c != '%'
    ensures PathUnescape(SpelledByte(c) + rest) ==
            match PathUnescape(rest) case None => None case Some(s) => Some([c] + s)
  {
    var s := SpelledByte(c) + rest;
    if |SpelledByte(c)| == 3 {
      assert Coded(s) == Some(c) by {
        HexDigits(c as int / 16);
        HexDigits(c as int % 16);
      }
      assert s[3..] == rest;
    } else {
      assert s[1..] == rest;
    }
  }

  lemma HexDigits(n: nat)
    requires n < 16
    ensures FromHexDigit(HexDigit(n)) == Some(n) && FromHexDigit(LowerHexDigit(n)) == Some(n)
  {
  }

  lemma {:induction false} DecodeSpelled(r: Bytes)
    ensures '%' !in r ==> PathUnescape(Spelled(r)) == Some(r)
    ensures '%' in r && PathUnescape(Spelled(r)).Some? ==> |PathUnescape(Spelled(r)).value| < |r|
    decreases |r|
  {
    if r != [] {
      var c, rest := r[0], r[1..];
      assert r == [c] + rest;
      SpelledCons(c, rest);
      if c == '%' {
        DecodePercent(r);
      } else {
        DecodeSpelled(rest);
        DecodedByte(c, Spelled(rest));
      }
    }
  }

  // A percent sign is not spelled; if it is read as an escape, two bytes go.
  lemma {:induction false} DecodePercent(r: Bytes)
    requires r != [] && r[0] == '%'
    ensures PathUnescape(Spelled(r)).Some? ==> |PathUnescape(Spelled(r)).value| < |r|
    decreases |r|, 0
  {
    var s := Spelled(r);
    SpelledCons('%', r[1..]);
    assert r == ['%'] + r[1..] && s == ['%'] + Spelled(r[1..]);
    if PathUnescape(s).Some? {
      SpelledHex(r[1..], s[1..]);
      SpelledHex(r[2..], s[2..]);
      DecodeSpelled(r[3..]);
      assert s[3..] == Spelled(r[3..]);
    }
  }

  // A hexadecimal digit at the start of a spelled path stands for itself.
  lemma SpelledHex(r: Bytes, s: Bytes)
    requires s == Spelled(r) && s != [] && FromHexDigit(s[0]).Some?
    ensures r != [] && s[1..] == Spelled(r[1..])
  {
    if r != [] {
      SpelledCons(r[0], r[1..]);
      assert r == [r[0]] + r[1..];
    }
  }

  predicate QueryByte(c: Octet) {
    !InQuerySet(c)
  }

  lemma {:induction false} EncodedQueryIs(s: Bytes)
    ensures forall c | c in EncodedQuery(s) :: QueryByte(c)
    ensures (forall c | c in s :: QueryByte(c)) ==> EncodedQuery(s) == s
  {
    if s != [] {
      EncodedQueryIs(s[1..]);
      assert s == [s[0]] + s[1..] && s[0] in s && forall c | c in s[1..] :: c in s;
      forall c | c in PercentEncoded(s[0])
        ensures QueryByte(c)
      {
      }
    }
  }

  // ---- The request for a Location ----

  // Path and query that the browser reads from the bytes s, once on one line.
  function Parts(s: Bytes): (Bytes, Bytes) {
    Cut(Cut(Seen(OneLine(s)), '#').0, '?')
  }

  lemma {:induction false} StrippedIs(s: Bytes)
    ensures Stripped(s) <= s && (Stripped(s) != [] ==> Last(Stripped(s)) > ' ')
    ensures forall i | |Stripped(s)| <= i < |s| :: s[i] <= ' '
  {
    if s != [] && Last(s) <= ' ' {
      StrippedIs(s[..|s| - 1]);
    }
  }

  lemma {:induction false} DropTabsIs(s: Bytes)
    ensures |DropTabs(s)| <= |s| && forall c | c in DropTabs(s) :: c in s && !Dropped(c)
  {
    if s != [] {
      DropTabsIs(s[1..]);
      assert s == [s[0]] + s[1..];
    }
  }

  lemma {:induction false} DropTabsCut(s: Bytes, c: Octet)
    requires !Dropped(c)
    ensures Cut(DropTabs(s), c).0 == DropTabs(Cut(s, c).0)
  {
    if s != [] {
      var b, rest := s[0], s[1..];
      assert s == [b] + rest;
      DropTabsCons(b, rest);
      if b == c {
        assert DropTabs(s)[0] == c;
      } else {
        DropTabsCut(rest, c);
        CutCons(b, rest, c);
        DropTabsCons(b, Cut(rest, c).0);
        if Dropped(b) {
          assert DropTabs(s) == DropTabs(rest);
        } else {
          CutCons(b, DropTabs(rest), c);
        }
      }
    }
  }

  lemma OneLineCut(s: Bytes, c: Octet)
    requires c != ' ' && c != LF && c != CR
    ensures |Cut(OneLine(s), c).0| <= |Cut(s, c).0|
  {
    OneLineIs(s);
    var k := |Cut(s, c).0|;
    if c in s {
      assert s[k] == c;
      CutBound(OneLine(s), c, k);
    }
  }

  // The browser's path is no longer than the part before the question mark, and
  // holds none of the bytes that end or vanish.
  lemma PartsShort(s: Bytes)
    ensures |Parts(s).0| <= |PathBefore(s)|
    ensures forall c | c in Parts(s).0 :: c != '#' && c != '?' && !Dropped(c)
    ensures Parts(s).0 <= Seen(OneLine(s))
  {
    var line, seen := OneLine(s), Seen(OneLine(s));
    OneLineCut(s, '?');
    StrippedIs(line);
    CutOfPrefix(Stripped(line), line, '?');
    DropTabsCut(Stripped(line), '?');
    DropTabsIs(Cut(Stripped(line), '?').0);
    DropTabsIs(Stripped(line));
    CutOfPrefix(Cut(seen, '#').0, seen, '?');
    PartsPrefix(seen);
  }

  lemma PartsPrefix(seen: Bytes)
    ensures var p := Cut(Cut(seen, '#').0, '?').0; p <= seen && '#' !in p && '?' !in p
  {
    var main := Cut(seen, '#').0;
    assert main <= seen;
    assert Cut(main, '?').0 <= main;
  }

  lemma PartsRooted(s: Bytes)
    requires s != [] && s[0] == '/'
    ensures Parts(s).0 != [] && Parts(s).0[0] == '/'
  {
    OneLineIs(s);
    StrippedIs(OneLine(s));
    var stripped := Stripped(OneLine(s));
    assert stripped != [];
    assert Seen(OneLine(s))[0] == '/';
  }

  lemma RequestOf(url: Bytes)
    requires Rooted(url) && !LeavesSite(Location(url))
    ensures var (p, q) := Parts(Redirected(url));
            RequestFor(Location(url)) == Some((Spelled(Resolved(p)), EncodedQuery(Escaped(q))))
  {
    var sent := Redirected(url);
    var seen := Seen(OneLine(sent));
    SeenLocation(url);
    CutEscaped(seen, '#');
    CutEscaped(Cut(seen, '#').0, '?');
    RedirectedIs(url);
    PartsRooted(sent);
    ResolvedEscaped(Parts(sent).0);
  }

  // ---- When the turned-away request is repeated ----

  // What RequireAuth writes for a request: the decoded path and the raw query.
  function Target(path: Bytes, query: Bytes): Bytes {
    path + if query == [] then [] else ['?'] + query
  }

  // The request whose path is spelled rawPath and decodes to path is repeated by
  // the browser after the login: the target is safe; the spelling is the one
  // that net/http and the browser use; the path holds no byte that ends a path,
  // starts an escape or vanishes on the way, no dot segment, and, unless a
  // control character keeps net/http from cleaning it, no empty segment but at
  // the end; it does not end in a blank; and the query needs no escaping.
  ghost predicate Repeatable(rawPath: Bytes, path: Bytes, query: Bytes) {
    && Safe(Target(path, query)) && path != [] && path[0] == '/'
    && rawPath == Spelled(path)
    && (forall c | c in path :: c != '?' && c != '#' && c != '%' && !Dropped(c))
    && DotFree(path) && ((forall c | c in path :: !Control(c)) ==> IsClean(path))
    && (query == [] ==> Last(path) > ' ')
    && (forall c | c in query :: QueryByte(c))
  }

  lemma TargetPath(path: Bytes, query: Bytes)
    ensures |PathBefore(Target(path, query))| <= |path|
    ensures '?' !in path ==> PathBefore(Target(path, query)) == path && Cut(Target(path, query), '?').1 == query
  {
    var target := Target(path, query);
    if query != [] {
      assert target == path + ['?'] + query && target[|path|] == '?';
      CutBound(target, '?', |path|);
      if '?' !in path {
        CutAt(path, '?', query);
      }
    } else {
      assert target == path;
      if '?' !in path {
        CutNone(path, '?');
      }
    }
  }

  // Such a target parses exactly when its path has no control characters.
  lemma TargetParses(path: Bytes, query: Bytes)
    requires forall c | c in path :: c != '?' && c != '#' && c != '%'
    requires forall c | c in query :: QueryByte(c)
    ensures Parses(Target(path, query)) <==> forall c | c in path :: !Control(c)
  {
    var target := Target(path, query);
    assert '#' !in target;
    CutNone(target, '#');
    TargetPath(path, query);
    PathUnescapePlain(path);
    assert PathUnescape([]) == Some([]);
    assert forall c | c in path :: c in target;
    assert forall c | c in query :: !Control(c);
  }

  // A target with these properties travels unchanged up to escaping.
  lemma RepeatableIsSent(rawPath: Bytes, path: Bytes, query: Bytes)
    requires Repeatable(rawPath, path, query)
    ensures var target := Target(path, query);
            Rooted(target) && Redirected(target) == target && Seen(OneLine(target)) == target
  {
    var target := Target(path, query);
    RepeatableStays(rawPath, path, query);
    TargetBytes(path, query);
    SeenUnchanged(target);
  }

  lemma RepeatableStays(rawPath: Bytes, path: Bytes, query: Bytes)
    requires Repeatable(rawPath, path, query)
    ensures var target := Target(path, query); Rooted(target) && Redirected(target) == target
  {
    TargetPath(path, query);
    TargetParses(path, query);
    RedirectedIs(Target(path, query));
  }

  lemma TargetBytes(path: Bytes, query: Bytes)
    requires path != [] && forall c | c in path :: c != '#' && !Dropped(c)
    requires (query == [] ==> Last(path) > ' ') && forall c | c in query :: QueryByte(c)
    ensures var target := Target(path, query);
            target != [] && Last(target) > ' ' && forall c | c in target :: !Dropped(c) && c != '#'
  {
    var target := Target(path, query);
    if query != [] {
      assert target == path + (['?'] + query) && Last(target) == Last(query) && Last(query) in query;
    } else {
      assert target == path;
    }
  }

  lemma SeenUnchanged(s: Bytes)
    requires s != [] && Last(s) > ' ' && forall c | c in s :: !Dropped(c)
    ensures Seen(OneLine(s)) == s
  {
    OneLineUnchanged(s);
    NothingDropped(s);
  }

  lemma RepeatableIsRepeated(rawPath: Bytes, path: Bytes, query: Bytes)
    requires Repeatable(rawPath, path, query)
    ensures RequestFor(Location(Target(path, query))) == Some((rawPath, query))
  {
    var target := Target(path, query);
    RepeatableIsSent(rawPath, path, query);
    TargetBytes(path, query);
    CutNone(target, '#');
    TargetPath(path, query);
    ResolvedIs(path);
    EncodedQueryIs(query);
    assert Ascii(query);
    EscapedAscii(query);
    StaysOnSite(target);
    RequestOf(target);
  }

  lemma StaysOnSite(target: Bytes)
    requires Rooted(target) && '\\' !in target && Redirected(target) == target && Seen(OneLine(target)) == target
    ensures !LeavesSite(Location(target))
  {
    SeenLocation(target);
    assert Escaped(target) == EscapedByte('/') + Escaped(target[1..]);
    if |target| > 1 {
      assert Escaped(target[1..])[0] == EscapedByte(target[1])[0];
    }
  }

  // Conversely, every step of the way shortens what it changes.
  lemma RepeatedPath(rawPath: Bytes, path: Bytes, query: Bytes)
    requires PathUnescape(rawPath) == Some(path) && Safe(Target(path, query))
    requires RequestFor(Location(Target(path, query))) == Some((rawPath, query))
    ensures var target := Target(path, query);
            var p := Parts(Redirected(target)).0;
            && path == p && path != [] && path[0] == '/' && rawPath == Spelled(path) && '%' !in path && DotFree(path)
            && |PathBefore(target)| == |path| && (Parses(target) ==> IsClean(PathBefore(target)))
    ensures forall c | c in query :: QueryByte(c)
  {
    var target := Target(path, query);
    var sent := Redirected(target);
    var (p, q) := Parts(sent);
    RequestOf(target);
    RedirectedIs(target);
    PartsRooted(sent);
    PartsShort(sent);
    RedirectedPath(target);
    TargetPath(path, query);
    ResolvedIs(p);
    DecodeSpelled(Resolved(p));
    EncodedQueryIs(Escaped(q));
  }

  lemma RepeatedIsRepeatable(rawPath: Bytes, path: Bytes, query: Bytes)
    requires PathUnescape(rawPath) == Some(path) && Safe(Target(path, query))
    requires RequestFor(Location(Target(path, query))) == Some((rawPath, query))
    ensures Repeatable(rawPath, path, query)
  {
    var target := Target(path, query);
    RepeatedPath(rawPath, path, query);
    PartsShort(Redirected(target));
    RedirectedIs(target);
    TargetPath(path, query);
    TargetParses(path, query);
    if query == [] {
      assert target == path;
      EndsVisibly(path);
    }
  }

  // A path that the browser reads to its end does not end in a blank.
  lemma EndsVisibly(path: Bytes)
    requires path != [] && path <= Seen(OneLine(path))
    ensures Last(path) > ' '
  {
    OneLineIs(path);
    StrippedIs(OneLine(path));
    DropTabsIs(Stripped(OneLine(path)));
    assert Stripped(OneLine(path)) == OneLine(path);
  }

  // After a login with no plan pending, the browser repeats the request that
  // RequireAuth turned away, byte for byte, exactly when it is repeatable.
  lemma RepeatsRequestIff(rawPath: Bytes, path: Bytes, query: Bytes, noWatches: bool)
    requires PathUnescape(rawPath) == Some(path)
    ensures RequestFor(Location(AfterLogin(LoginQuery(Target(path, query)), noWatches))) == Some((rawPath, query)) <==>
            Repeatable(rawPath, path, query)
  {
    if Safe(Target(path, query)) {
      SafeIsHandedOn(Target(path, query), noWatches);
      SafeRepeatedIff(rawPath, path, query);
    } else {
      UnsafeIsElsewhere(rawPath, path, query, noWatches);
    }
  }

  lemma SafeIsHandedOn(target: Bytes, noWatches: bool)
    requires Safe(target)
    ensures AfterLogin(LoginQuery(target), noWatches) == target
  {
    LoginQueryAlone(target);
    HandsOnTarget(target, None, noWatches);
  }

  lemma UnsafeIsElsewhere(rawPath: Bytes, path: Bytes, query: Bytes, noWatches: bool)
    requires PathUnescape(rawPath) == Some(path) && !Safe(Target(path, query))
    ensures RequestFor(Location(AfterLogin(LoginQuery(Target(path, query)), noWatches))) != Some((rawPath, query))
  {
    LoginQueryAlone(Target(path, query));
    NotSafeIsDefault(Target(path, query), None, noWatches);
    var url := AfterLogin(LoginQuery(Target(path, query)), noWatches);
    var name := DefaultName(url);
    DefaultIsElsewhere(url, name, rawPath, path, query);
  }

  lemma DefaultName(url: Bytes) returns (name: Bytes)
    requires url == DASHBOARD || url == WELCOME
    ensures Plain(name) && url == ['/'] + name
  {
    name := url[1..];
  }

  lemma SafeRepeatedIff(rawPath: Bytes, path: Bytes, query: Bytes)
    requires PathUnescape(rawPath) == Some(path) && Safe(Target(path, query))
    ensures RequestFor(Location(Target(path, query))) == Some((rawPath, query)) <==> Repeatable(rawPath, path, query)
  {
    if Repeatable(rawPath, path, query) {
      RepeatableIsRepeated(rawPath, path, query);
    } else if RequestFor(Location(Target(path, query))) == Some((rawPath, query)) {
      RepeatedIsRepeatable(rawPath, path, query);
    }
  }

  lemma LoginQueryAlone(target: Bytes)
    ensures LoginQuery(target) + Followed(None) == LoginQuery(target)
  {
  }

  // The default pages are safe targets themselves.
  lemma DefaultIsElsewhere(url: Bytes, name: Bytes, rawPath: Bytes, path: Bytes, query: Bytes)
    requires Plain(name) && url == ['/'] + name && PathUnescape(rawPath) == Some(path) && !Safe(Target(path, query))
    ensures Rooted(url) && RequestFor(Location(url)) != Some((rawPath, query))
  {
    PlainRepeatable(url, name);
    RepeatableIsRepeated(url, url, []);
    assert Target(url, []) == url;
    if rawPath == url && query == [] {
      PathUnescapePlain(url);
    }
  }

  lemma PlainRepeatable(url: Bytes, name: Bytes)
    requires Plain(name) && url == ['/'] + name
    ensures Repeatable(url, url, []) && '%' !in url
  {
    assert Target(url, []) == url && name[0] in name;
    PlainUrl(url, name);
    PlainSpelled(url);
  }

  lemma PlainUrl(url: Bytes, name: Bytes)
    requires Plain(name) && url == ['/'] + name
    ensures Safe(url) && IsClean(url) && DotFree(url) && Last(url) > ' '
    ensures forall c | c in url :: c == '/' || 'a' <= c <= 'z'
    ensures forall c | c in url :: !NonAscii(c) && !InPathSet(c) && !Dropped(c) && c != '?' && c != '#' && c != '%'
  {
    assert url[1..] == name && name[0] in name;
    PlainName(name);
    assert Segments(name) == [name] && !Dotted(name);
  }

  lemma {:induction false} PlainSpelled(s: Bytes)
    requires forall c | c in s :: !NonAscii(c) && !InPathSet(c)
    ensures Spelled(s) == s
  {
    if s != [] {
      assert s == [s[0]] + s[1..] && s[0] in s && forall c | c in s[1..] :: c in s;
      PlainSpelled(s[1..]);
      SpelledCons(s[0], s[1..]);
    }
  }

  // In particular, two plain segments and a query of plain bytes, escapes and the
  // usual separators.
  lemma PlainRequestIsRepeated(a: Bytes, b: Bytes, query: Bytes, noWatches: bool)
    requires PlainSegment(a) && PlainSegment(b) && forall c | c in query :: Unreserved(c) || c in "=&+%/"
    ensures var path := ['/'] + Join([a, b]);
            RequestFor(Location(AfterLogin(LoginQuery(Target(path, query)), noWatches))) == Some((path, query))
  {
    var path := ['/'] + Join([a, b]);
    PlainPathShape(path, a, b);
    PathUnescapePlain(path);
    PlainTargetRepeats(path, query);
    RepeatsRequestIff(path, path, query, noWatches);
  }

  lemma PlainTargetRepeats(path: Bytes, query: Bytes)
    requires Safe(path) && PathBytes(path) && |path| > 1 && Last(path) > ' '
    requires DotFree(path) && IsClean(path) && Spelled(path) == path
    requires forall c | c in query :: Unreserved(c) || c in "=&+%/"
    ensures Repeatable(path, path, query)
  {
    PlainTargetSafe(path, query);
    forall c | c in path
      ensures c != '?' && c != '#' && c != '%' && !Dropped(c)
    {
      PathByteStays(c);
    }
  }

  lemma PlainPathShape(path: Bytes, a: Bytes, b: Bytes)
    requires PlainSegment(a) && PlainSegment(b) && path == ['/'] + Join([a, b])
    ensures Safe(path) && PathBytes(path) && '%' !in path && Last(path) > ' '
    ensures DotFree(path) && IsClean(path) && Spelled(path) == path
  {
    assert [a, b] == [a] + [b];
    JoinCons(a, [b]);
    PlainBytes(path, a, b, b);
    assert !PathByte('%');
    TwoSegments(a, b);
    assert path[1..] == Join([a, b]);
    TwoPlain(a, b);
    PathBytesSpelled(path);
  }

  lemma PathByteStays(c: Octet)
    requires PathByte(c)
    ensures !NonAscii(c) && !InPathSet(c) && c != '?' && c != '#' && c != '%' && !Dropped(c)
  {
  }

  lemma PathBytesSpelled(s: Bytes)
    requires PathBytes(s)
    ensures Spelled(s) == s
  {
    forall c | c in s
      ensures !NonAscii(c) && !InPathSet(c)
    {
      PathByteStays(c);
    }
    PlainSpelled(s);
  }

  lemma TwoSegments(a: Bytes, b: Bytes)
    requires PlainSegment(a) && PlainSegment(b)
    ensures Segments(Join([a, b])) == [a, b]
  {
    assert [a, b] == [a] + [b];
    JoinCons(a, [b]);
    assert !Unreserved('/') && '/' !in a && '/' !in b;
    SegmentsAt(a, b);
    assert Join([b]) == b && Segments(b) == [b];
  }

  lemma TwoPlain(a: Bytes, b: Bytes)
    requires PlainSegment(a) && PlainSegment(b)
    ensures NoDotted([a, b]) && CleanList([a, b])
  {
    PlainIsNotDotted(a);
    PlainIsNotDotted(b);
    assert [a, b][..1] == [a];
  }

  lemma PlainTargetSafe(path: Bytes, query: Bytes)
    requires Safe(path) && PathBytes(path) && |path| > 1
    requires forall c | c in query :: Unreserved(c) || c in "=&+%/"
    ensures Safe(Target(path, query)) && forall c | c in query :: QueryByte(c)
  {
    forall c | c in query
      ensures QueryByte(c) && c != '\\'
    {
    }
  }

  // A safe target that is not returned to: between any two segments of plain
  // bytes, a doubled slash comes back as a single one.
  predicate PlainSegment(x: Bytes) {
    Ordinary(x) && forall c | c in x :: Unreserved(c)
  }

  lemma DoubledSlashIsLost(a: Bytes, b: Bytes, noWatches: bool)
    requires PlainSegment(a) && PlainSegment(b)
    ensures var target, sent := ['/'] + Join([a, [], b]), ['/'] + Join([a, b]);
            Safe(target) && |sent| < |target| && Location(AfterLogin(LoginQuery(target), noWatches)) == sent
  {
    var target, sent := ['/'] + Join([a, [], b]), ['/'] + Join([a, b]);
    assert [a, [], b] == [a] + ([[]] + [b]) && [a, b] == [a] + [b];
    JoinCons(a, [[]] + [b]);
    JoinCons([], [b]);
    JoinCons(a, [b]);
    PlainBytes(target, a, [] + (['/'] + b), b);
    PlainBytes(sent, a, b, b);
    SafeIsHandedOn(target, noWatches);
    DoubledSlashRedirected(target, a, b);
    PlainLocation(target, sent);
  }

  predicate PathByte(c: Octet) {
    Unreserved(c) || c == '/'
  }

  predicate PathBytes(s: Bytes) {
    forall c | c in s :: PathByte(c)
  }

  lemma PlainBytes(path: Bytes, a: Bytes, tail: Bytes, b: Bytes)
    requires PlainSegment(a) && PlainSegment(b) && (tail == b || tail == [] + (['/'] + b))
    requires path == ['/'] + (a + (['/'] + tail))
    ensures Safe(path) && PathBytes(path) && Ascii(path) && OnOneLine(path) && Last(path) > ' '
  {
    assert path[1] == a[0] && a[0] in a;
    assert Last(path) == Last(b) && Last(b) in b;
    assert PathBytes(path);
    assert !PathByte('\\') && !PathByte(LF) && !PathByte(CR);
  }

  lemma PlainLocation(target: Bytes, sent: Bytes)
    requires Rooted(target) && Redirected(target) == sent && sent != [] && Last(sent) > ' '
    requires Ascii(sent) && OnOneLine(sent)
    ensures Location(target) == sent
  {
    EscapedAscii(sent);
    OneLineUnchanged(sent);
    TrimmedIs(sent);
  }

  lemma DoubledSlashRedirected(target: Bytes, a: Bytes, b: Bytes)
    requires PlainSegment(a) && PlainSegment(b) && target == ['/'] + Join([a, [], b]) && Rooted(target)
    requires PathBytes(target)
    ensures Redirected(target) == ['/'] + Join([a, b]) && |Redirected(target)| < |target|
  {
    PlainParses(target);
    assert target[1..] == Join([a, [], b]);
    DoubledSlashSegments(a, b);
    KeptAroundEmpty(a, b);
    PlainEnd(target, b);
    assert Cleaned(target) == ['/'] + Join([a, b]);
    assert Cleaned(target) + target[|target|..] == Cleaned(target);
    JoinLength([a, [], b]);
    JoinLength([a, b]);
    TotalThree(a, b);
  }

  lemma PlainEnd(target: Bytes, b: Bytes)
    requires target != [] && b != [] && LastOf(Segments(target[1..])) == b
    ensures !EndsInSlash(target)
  {
    LastSegment(target[1..]);
    SegmentsNoSlash(target[1..]);
  }

  lemma TotalThree(a: Bytes, b: Bytes)
    ensures Total([a, [], b]) == Total([a, b]) + 1
  {
    assert [a, [], b] == [a] + [[]] + [b] && [a, b] == [a] + [b];
    TotalSnoc([a] + [[]], b);
    TotalSnoc([a], []);
    TotalSnoc([a], b);
  }

  lemma PlainParses(target: Bytes)
    requires PathBytes(target)
    ensures Parses(target) && PathBefore(target) == target
  {
    CutNone(target, '?');
    CutNone(target, '#');
    PathUnescapePlain(target);
    assert PathUnescape([]) == Some([]);
  }

  lemma SegmentsAt(a: Bytes, rest: Bytes)
    requires '/' !in a
    ensures Segments(a + (['/'] + rest)) == [a] + Segments(rest)
  {
    assert a + (['/'] + rest) == a + ['/'] + rest;
    CutAt(a, '/', rest);
  }

  lemma DoubledSlashSegments(a: Bytes, b: Bytes)
    requires PlainSegment(a) && PlainSegment(b)
    ensures Segments(Join([a, [], b])) == [a, [], b]
  {
    assert '/' !in a && '/' !in b;
    ThreeAround(a, [], b);
  }

  lemma KeptAroundEmpty(a: Bytes, b: Bytes)
    requires Ordinary(a) && Ordinary(b)
    ensures Kept([], [a, [], b]) == [a, b]
  {
    assert [a, [], b] == [a] + [[]] + [b] && [] + [a] == [a] && [a] + [b] == [a, b];
    KeptSnoc([], [a] + [[]], b);
    KeptSnoc([], [a], []);
    KeptSnoc([], [], a);
  }

  // ---- Leaving the site ----

  function AfterTabs(s: Bytes): Bytes {
    if s != [] && s[0] == TAB then AfterTabs(s[1..]) else s
  }

  // Behind the leading slash, and any number of tabs, comes another slash.
  predicate SlashBehindTabs(url: Bytes)
    requires url != []
  {
    var rest := AfterTabs(url[1..]);
    rest != [] && rest[0] == '/'
  }

  lemma {:induction false} AfterTabsIs(s: Bytes) returns (k: nat)
    ensures k <= |s| && AfterTabs(s) == s[k..] && (forall i | 0 <= i < k :: s[i] == TAB)
    ensures k < |s| ==> s[k] != TAB
  {
    k := 0;
    if s != [] && s[0] == TAB {
      var n := AfterTabsIs(s[1..]);
      k := n + 1;
      assert s[1..][n..] == s[k..];
      forall i | 0 <= i < k
        ensures s[i] == TAB
      {
        assert i > 0 ==> s[i] == s[1..][i - 1];
      }
    }
  }

  lemma {:induction false} DropTabsBehind(s: Bytes, k: nat)
    requires k <= |s| && forall i | 0 <= i < k :: s[i] == TAB
    ensures DropTabs(s) == DropTabs(s[k..])
  {
    if k > 0 {
      assert s == [s[0]] + s[1..];
      DropTabsCons(s[0], s[1..]);
      DropTabsBehind(s[1..], k - 1);
      assert s[1..][k - 1..] == s[k..];
    }
  }

  // The browser sees a second slash exactly when one follows the tabs.
  lemma SeenSlash(s: Bytes)
    requires s != [] && s[0] == '/' && OnOneLine(s)
    ensures |Seen(s)| > 1 && Seen(s)[1] == '/' <==> SlashBehindTabs(s)
  {
    StrippedIs(s);
    var kept := Stripped(s);
    assert kept[0] == '/' && kept == ['/'] + kept[1..];
    DropTabsCons('/', kept[1..]);
    var k := AfterTabsIs(s[1..]);
    assert kept[1..] <= s[1..];
    if |kept| > k + 1 {
      DropTabsBehind(kept[1..], k);
      FirstStays(kept[1..], k, s[k + 1]);
      assert s[k + 1] in s;
    } else {
      OnlyTabs(kept[1..]);
      assert k + 1 < |s| ==> s[k + 1] <= ' ';
    }
  }

  lemma FirstStays(s: Bytes, k: nat, c: Octet)
    requires k < |s| && s[k] == c && !Dropped(c)
    ensures DropTabs(s[k..]) != [] && DropTabs(s[k..])[0] == c
  {
    assert s[k..] == [c] + s[k + 1..];
    DropTabsCons(c, s[k + 1..]);
  }

  lemma {:induction false} OnlyTabs(s: Bytes)
    requires forall i | 0 <= i < |s| :: s[i] == TAB
    ensures DropTabs(s) == []
  {
    DropTabsBehind(s, |s|);
  }

  lemma {:induction false} AfterTabsOneLine(s: Bytes)
    ensures var a, b := AfterTabs(s), AfterTabs(OneLine(s)); a != [] && a[0] == '/' <==> b != [] && b[0] == '/'
  {
    if s != [] && s[0] == TAB {
      AfterTabsOneLine(s[1..]);
    }
  }

  // A location leaves the site exactly when a slash follows the tabs in what
  // http.Redirect made of the URL.
  lemma LeavesSiteIs(url: Bytes)
    requires Rooted(url) && '\\' !in url
    ensures LeavesSite(Location(url)) <==> SlashBehindTabs(Redirected(url))
  {
    var sent := Redirected(url);
    RedirectedIs(url);
    SeenLocation(url);
    SlashOnOneLine(sent);
    SeenSlash(OneLine(sent));
    RedirectedWithout(url, '\\');
    SeenWithout(sent, '\\');
    EscapedSlashes(Seen(OneLine(sent)));
    SeenStart(OneLine(sent));
  }

  // A byte that is not in the URL does not come up on the way.
  lemma SeenWithout(s: Bytes, c: Octet)
    requires c !in s && c != ' '
    ensures c !in Seen(OneLine(s))
  {
    OneLineIs(s);
    StrippedIs(OneLine(s));
    DropTabsIs(Stripped(OneLine(s)));
    assert c !in OneLine(s);
  }

  lemma {:induction false} JoinWithout(segments: seq<Bytes>, c: Octet)
    requires c != '/' && forall x | x in segments :: c !in x
    ensures c !in Join(segments)
  {
    if segments != [] {
      assert segments[0] in segments && forall x | x in segments[1..] :: x in segments;
      if |segments| > 1 {
        JoinWithout(segments[1..], c);
      }
    }
  }

  lemma RedirectedWithout(url: Bytes, c: Octet)
    requires Rooted(url) && c != '/' && c !in url
    ensures c !in Redirected(url)
  {
    var p := PathBefore(url);
    RedirectedIs(url);
    assert url == p + url[|p|..];
    SolidKept(p[1..]);
    JoinWithout(Kept([], Segments(p[1..])), c);
  }

  lemma SlashOnOneLine(s: Bytes)
    requires s != [] && s[0] == '/'
    ensures var line := OneLine(s);
            line != [] && line[0] == '/' && OnOneLine(line) && (SlashBehindTabs(line) <==> SlashBehindTabs(s))
  {
    var line := OneLine(s);
    OneLineIs(s);
    assert line == ['/'] + OneLine(s[1..]);
    assert line[1..] == OneLine(s[1..]);
    AfterTabsOneLine(s[1..]);
  }

  lemma SeenStart(s: Bytes)
    requires s != [] && s[0] == '/'
    ensures Seen(s) != [] && Seen(s)[0] == '/'
  {
    StrippedIs(s);
    var kept := Stripped(s);
    assert kept[0] == '/' && kept == ['/'] + kept[1..];
    DropTabsCons('/', kept[1..]);
  }

  lemma EscapedSlashes(s: Bytes)
    requires '\\' !in s
    ensures var e := Escaped(s);
            |e| > 1 && e[0] == '/' && (e[1] == '/' || e[1] == '\\') <==> |s| > 1 && s[0] == '/' && s[1] == '/'
  {
    if s != [] && s[0] == '/' {
      assert s == ['/'] + s[1..];
      EscapedCons('/', s[1..]);
      if |s| > 1 {
        assert s[1] in s && Escaped(s[1..])[0] == EscapedByte(s[1])[0];
      }
    }
  }

  // What path.Clean keeps are non-empty segments of the path.
  lemma {:induction false} KeptFrom(stack: seq<Bytes>, segments: seq<Bytes>)
    ensures forall x | x in Kept(stack, segments) :: x in stack || (x in segments && x != [])
    decreases |segments|
  {
    if segments != [] {
      KeptFrom(Push(stack, segments[0]), segments[1..]);
    }
  }

  lemma {:induction false} SegmentBytes(s: Bytes, x: Bytes)
    requires x in Segments(s)
    ensures '/' !in x && forall c | c in x :: c in s
    decreases |s|
  {
    if '/' in s {
      var (first, rest) := Cut(s, '/');
      if x != first {
        SegmentBytes(rest, x);
      }
    }
  }

  predicate AllTabs(x: Bytes) {
    forall i | 0 <= i < |x| :: x[i] == TAB
  }

  lemma {:induction false} AfterTabsAppend(x: Bytes, y: Bytes)
    ensures AllTabs(x) ==> AfterTabs(x + y) == AfterTabs(y)
    ensures !AllTabs(x) ==> AfterTabs(x + y) != [] && AfterTabs(x + y)[0] in x && AfterTabs(x + y)[0] != TAB
  {
    if x == [] {
      assert x + y == y;
    } else {
      assert x == [x[0]] + x[1..] && (x + y)[1..] == x[1..] + y;
      if x[0] == TAB {
        AfterTabsAppend(x[1..], y);
        AllTabsTail(x);
      }
    }
  }

  lemma AllTabsTail(x: Bytes)
    requires x != [] && x[0] == TAB
    ensures AllTabs(x) <==> AllTabs(x[1..])
  {
    if AllTabs(x[1..]) {
      forall i | 0 <= i < |x|
        ensures x[i] == TAB
      {
        assert i > 0 ==> x[i] == x[1..][i - 1];
      }
    }
  }

  // The first segment that cleaning keeps is made of tabs, and more follows it.
  predicate TabsFirst(kept: seq<Bytes>, directory: bool) {
    kept != [] && AllTabs(kept[0]) && (|kept| > 1 || directory)
  }

  lemma RebuiltSlash(kept: seq<Bytes>, directory: bool, tail: Bytes)
    requires forall x | x in kept :: x != [] && '/' !in x
    requires tail == [] || tail[0] == '?'
    ensures SlashBehindTabs(Rebuilt(kept, directory) + tail) <==> TabsFirst(kept, directory)
  {
    if kept == [] {
      assert (['/'] + tail)[1..] == tail;
      assert Rebuilt(kept, directory) == ['/'];
    } else if |kept| == 1 {
      assert kept[0] in kept && kept == [kept[0]];
      RebuiltSlashOne(kept[0], directory, tail);
    } else {
      assert kept[0] in kept;
      RebuiltSlashMany(kept, directory, tail);
    }
  }

  lemma RebuiltSlashOne(x: Bytes, directory: bool, tail: Bytes)
    requires x != [] && '/' !in x && (tail == [] || tail[0] == '?')
    ensures SlashBehindTabs(Rebuilt([x], directory) + tail) <==> AllTabs(x) && directory
  {
    var slash: Bytes := if directory then ['/'] else [];
    var url := ['/'] + (x + (slash + tail));
    RebuiltOne(x, directory);
    Associates(x, slash, tail);
    Associates(['/'], x + slash, tail);
    SlashBehind(url, x, slash + tail);
  }

  lemma RebuiltSlashMany(kept: seq<Bytes>, directory: bool, tail: Bytes)
    requires |kept| > 1 && '/' !in kept[0]
    ensures SlashBehindTabs(Rebuilt(kept, directory) + tail) <==> AllTabs(kept[0])
  {
    var x := kept[0];
    var rest: Bytes := RebuiltMany(kept, directory);
    var url := ['/'] + (x + (['/'] + rest + tail));
    Associates(x, ['/'] + rest, tail);
    Associates(['/'], x + (['/'] + rest), tail);
    SlashBehind(url, x, ['/'] + rest + tail);
  }

  lemma SlashBehind(url: Bytes, x: Bytes, rest: Bytes)
    requires url == ['/'] + (x + rest) && '/' !in x && (rest == [] || rest[0] != TAB)
    ensures SlashBehindTabs(url) <==> AllTabs(x) && rest != [] && rest[0] == '/'
  {
    assert url[1..] == x + rest;
    AfterTabsAppend(x, rest);
  }

  lemma RebuiltOne(x: Bytes, directory: bool)
    requires x != [] && '/' !in x
    ensures Rebuilt([x], directory) == ['/'] + (x + if directory then ['/'] else [])
  {
    assert Last(x) in x && Last(['/'] + x) == Last(x);
  }

  lemma RebuiltMany(kept: seq<Bytes>, directory: bool) returns (rest: Bytes)
    requires |kept| > 1
    ensures Rebuilt(kept, directory) == ['/'] + (kept[0] + (['/'] + rest))
  {
    var joined := Join(kept[1..]);
    var c := ['/'] + Join(kept);
    assert Join(kept) == kept[0] + (['/'] + joined);
    rest := joined;
    if directory && !EndsInSlash(c) {
      rest := joined + ['/'];
      Associates(['/'], joined, ['/']);
      Associates(kept[0], ['/'] + joined, ['/']);
      Associates(['/'], Join(kept), ['/']);
    }
  }

  // A browser reads the URL that http.Redirect is given as one of another host.
  // A URL that does not parse is sent as it is: a slash follows the tabs behind
  // the first one. A URL that parses is cleaned first: what becomes its first
  // segment is made of tabs and is not all there is.
  predicate ReadsAsHost(url: Bytes)
    requires Rooted(url)
  {
    if !Parses(url) then SlashBehindTabs(url)
    else
      var p := PathBefore(url);
      p != [] && TabsFirst(Kept([], Segments(p[1..])), EndsInSlash(p))
  }

  lemma RedirectedSlash(url: Bytes)
    requires Rooted(url)
    ensures SlashBehindTabs(Redirected(url)) <==> ReadsAsHost(url)
  {
    if Parses(url) {
      var p := PathBefore(url);
      RedirectedIs(url);
      SolidKept(p[1..]);
      assert url == p + url[|p|..];
      RebuiltSlash(Kept([], Segments(p[1..])), EndsInSlash(p), url[|p|..]);
    }
  }

  lemma SolidKept(s: Bytes)
    ensures forall x | x in Kept([], Segments(s)) :: x != [] && '/' !in x && forall c | c in x :: c in s
  {
    KeptFrom([], Segments(s));
    forall x | x in Kept([], Segments(s))
      ensures x != [] && '/' !in x && forall c | c in x :: c in s
    {
      SegmentBytes(s, x);
    }
  }

  lemma DefaultStays(query: Bytes, noWatches: bool)
    requires StoredReturn(query) == []
    ensures !LeavesSite(Location(AfterLogin(query, noWatches)))
  {
    var name := DefaultName(AfterLogin(query, noWatches));
    PlainStays(AfterLogin(query, noWatches), name);
  }

  lemma PlainStays(url: Bytes, name: Bytes)
    requires Plain(name) && url == ['/'] + name
    ensures Rooted(url) && !LeavesSite(Location(url))
  {
    PlainRepeatable(url, name);
    RepeatableIsSent(url, url, []);
    assert Target(url, []) == url;
    StaysOnSite(url);
  }

  // For every query string of the login link, with no plan pending: the
  // redirect after the login leaves the site exactly when its return_to
  // parameter passes safeReturnPath and still reads as another host.
  lemma LeavesSiteIff(query: Bytes, noWatches: bool)
    ensures var parameter := Get(ParseQuery(query), RETURN_TO);
            LeavesSite(Location(AfterLogin(query, noWatches))) <==> Safe(parameter) && ReadsAsHost(parameter)
  {
    var parameter := Get(ParseQuery(query), RETURN_TO);
    SafeReturnPathIs(parameter);
    if Safe(parameter) {
      LeavesSiteIs(parameter);
      RedirectedSlash(parameter);
    } else {
      DefaultStays(query, noWatches);
    }
  }

  // It takes a tab: without one, every redirect that safeReturnPath could have
  // let pass stays on this site.
  lemma WithoutTabsStays(url: Bytes)
    requires Rooted(url) && '\\' !in url && TAB !in url
    ensures !LeavesSite(Location(url))
  {
    LeavesSiteIs(url);
    RedirectedSlash(url);
    RedirectedIs(url);
    if Parses(url) {
      NoTabFirst(PathBefore(url), url);
    } else {
      NoTabBehind(url);
    }
  }

  lemma NoTabBehind(url: Bytes)
    requires Rooted(url) && TAB !in url
    ensures !SlashBehindTabs(url)
  {
    if |url| > 1 {
      var rest := url[1..];
      assert rest[0] == url[1] && url[1] in url;
      assert AfterTabs(rest) == rest;
    }
  }

  lemma NoTabFirst(p: Bytes, url: Bytes)
    requires p != [] && p <= url && TAB !in url
    ensures !TabsFirst(Kept([], Segments(p[1..])), EndsInSlash(p))
  {
    SolidKept(p[1..]);
    var kept := Kept([], Segments(p[1..]));
    if kept != [] {
      assert kept[0] in kept && kept[0][0] in kept[0] && kept[0][0] in p[1..];
      assert kept[0][0] in url;
    }
  }

  lemma LoginParameter(target: Bytes)
    ensures Get(ParseQuery(LoginQuery(target)), RETURN_TO) == target
  {
    Constants();
    LoginQueryAlone(target);
    GetPrinted(RETURN_TO, target, None);
  }

  // Two families of parameters that pass safeReturnPath and leave the site. In
  // the first, a tab keeps net/http from parsing the URL.
  lemma TabOpensHost(parameter: Bytes, rest: Bytes, noWatches: bool)
    requires parameter == ['/'] + ([TAB] + (['/'] + rest)) && '\\' !in rest
    ensures Safe(parameter) && LeavesSite(Location(AfterLogin(LoginQuery(parameter), noWatches)))
  {
    TabDoesNotParse(parameter);
    TabReads(parameter, rest);
    LeavesWith(parameter, noWatches);
  }

  lemma LeavesWith(parameter: Bytes, noWatches: bool)
    requires Safe(parameter) && ReadsAsHost(parameter)
    ensures LeavesSite(Location(AfterLogin(LoginQuery(parameter), noWatches)))
  {
    LoginParameter(parameter);
    LeavesSiteIff(LoginQuery(parameter), noWatches);
  }

  lemma TabReads(parameter: Bytes, rest: Bytes)
    requires parameter == ['/'] + ([TAB] + (['/'] + rest)) && '\\' !in rest
    ensures Safe(parameter) && SlashBehindTabs(parameter)
  {
    SlashBehind(parameter, [TAB], ['/'] + rest);
  }

  lemma TabDoesNotParse(url: Bytes)
    requires |url| > 1 && url[0] == '/' && url[1] == TAB
    ensures !Parses(url)
  {
    var rest := url[2..];
    assert url == ['/'] + ([TAB] + rest);
    CutCons('/', [TAB] + rest, '#');
    CutCons(TAB, rest, '#');
    assert Cut(url, '#').0[1] == TAB && TAB in Cut(url, '#').0;
  }

  // In the second, the tab stands in the fragment, and cleaning takes what is in
  // front of it away.
  lemma CleaningOpensHost(parameter: Bytes, b: Bytes, noWatches: bool)
    requires PlainSegment(b) && parameter == ['/'] + Join([['#'], DOTS, [TAB], b])
    ensures Safe(parameter) && LeavesSite(Location(AfterLogin(LoginQuery(parameter), noWatches)))
  {
    FragmentShape(parameter, b);
    FragmentParses(parameter, b);
    FragmentReads(parameter, b);
    LeavesWith(parameter, noWatches);
  }

  lemma FragmentReads(parameter: Bytes, b: Bytes)
    requires PlainSegment(b) && parameter == ['/'] + Join([['#'], DOTS, [TAB], b])
    ensures TabsFirst(Kept([], Segments(parameter[1..])), EndsInSlash(parameter))
  {
    assert parameter[1..] == Join([['#'], DOTS, [TAB], b]);
    FragmentSegments(b);
    FragmentKept(b);
  }

  lemma FragmentShape(parameter: Bytes, b: Bytes)
    requires PlainSegment(b) && parameter == ['/'] + Join([['#'], DOTS, [TAB], b])
    ensures parameter == ['/'] + (['#'] + (['/'] + (DOTS + (['/'] + ([TAB] + (['/'] + b))))))
    ensures Safe(parameter) && '?' !in parameter
  {
    assert [['#'], DOTS, [TAB], b] == [['#']] + ([DOTS] + ([[TAB]] + [b]));
    JoinCons(['#'], [DOTS] + ([[TAB]] + [b]));
    JoinCons(DOTS, [[TAB]] + [b]);
    JoinCons([TAB], [b]);
    assert !Unreserved('\\') && !Unreserved('?');
  }

  lemma FragmentParses(parameter: Bytes, b: Bytes)
    requires PlainSegment(b)
    requires parameter == ['/'] + (['#'] + (['/'] + (DOTS + (['/'] + ([TAB] + (['/'] + b))))))
    requires '?' !in parameter
    ensures Parses(parameter) && PathBefore(parameter) == parameter
  {
    var fragment := ['/'] + (DOTS + (['/'] + ([TAB] + (['/'] + b))));
    CutNone(parameter, '?');
    assert '%' !in fragment by {
      assert !Unreserved('%');
    }
    RootFragmentParses(parameter, fragment);
  }

  lemma RootFragmentParses(url: Bytes, fragment: Bytes)
    requires url == ['/'] + (['#'] + fragment) && '%' !in fragment
    ensures Parses(url)
  {
    assert url == ['/'] + ['#'] + fragment;
    CutAt(['/'], '#', fragment);
    CutNone(['/'], '?');
    PathUnescapePlain(fragment);
    PathUnescapePlain(['/']);
  }

  lemma FragmentSegments(b: Bytes)
    requires PlainSegment(b)
    ensures Segments(Join([['#'], DOTS, [TAB], b])) == [['#'], DOTS, [TAB], b]
  {
    assert [['#'], DOTS, [TAB], b] == [['#']] + ([DOTS] + ([[TAB]] + [b]));
    JoinCons(['#'], [DOTS] + ([[TAB]] + [b]));
    JoinCons(DOTS, [[TAB]] + [b]);
    JoinCons([TAB], [b]);
    assert '/' !in b;
    SegmentsAt(['#'], DOTS + (['/'] + ([TAB] + (['/'] + b))));
    SegmentsAt(DOTS, [TAB] + (['/'] + b));
    SegmentsAt([TAB], b);
  }

  lemma FragmentKept(b: Bytes)
    requires Ordinary(b)
    ensures Kept([], [['#'], DOTS, [TAB], b]) == [[TAB], b]
  {
    PoppedFirst(['#']);
    var rest: seq<Bytes> := [[TAB], b];
    KeptAppend([], [['#']] + [DOTS], rest);
    KeptShort([], rest);
    assert AllOrdinary(rest) && [] + rest == rest;
    assert [['#']] + [DOTS] + rest == [['#'], DOTS, [TAB], b];
  }

  lemma KeptCons(stack: seq<Bytes>, x: Bytes, rest: seq<Bytes>)
    ensures Kept(stack, [x] + rest) == Kept(Push(stack, x), rest)
  {
    assert ([x] + rest)[1..] == rest;
  }

  lemma {:induction false} KeptAppend(stack: seq<Bytes>, a: seq<Bytes>, b: seq<Bytes>)
    ensures Kept(stack, a + b) == Kept(Kept(stack, a), b)
    decreases |a|
  {
    if a == [] {
      assert a + b == b;
    } else {
      var x, rest := a[0], a[1..];
      KeptAppend(Push(stack, x), rest, b);
      KeptCons(stack, x, rest + b);
      assert a + b == [x] + (rest + b);
    }
  }

  lemma PoppedFirst(x: Bytes)
    requires Ordinary(x)
    ensures Kept([], [x] + [DOTS]) == []
  {
    KeptSnoc([], [x], DOTS);
    KeptSnoc([], [], x);
    assert [] + [x] == [x] && [x][..0] == [];
  }
}
