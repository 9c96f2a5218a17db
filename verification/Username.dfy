/**
 * User names derived from a sign-in (usernameCandidate, emailLocalPart and
 * slugify of app/repository/auth.go).
 *
 * Letters are Unicode scalar values. Lower maps to ASCII exactly the runes that
 * Go's unicode.ToLower maps to ASCII; every other rune is dropped by slugify.
 */
module Username {

  const MAX_LENGTH: nat := 32

  function Lower(c: char): char {
    if 'A' <= c <= 'Z' then (c as int + 32) as char
    else if c == '\U{0130}' then 'i'
    else if c == '\U{212A}' then 'k'
    else c
  }

  predicate AlphaNumeric(c: char) {
    'a' <= c <= 'z' || '0' <= c <= '9'
  }

  predicate Space(c: char) {
    || '\t' <= c <= '\r' || c == ' ' || c == '\U{0085}' || c == '\U{00A0}' || c == '\U{1680}'
    || '\U{2000}' <= c <= '\U{200A}' || c == '\U{2028}' || c == '\U{2029}'
    || c == '\U{202F}' || c == '\U{205F}' || c == '\U{3000}'
  }

  datatype Cutset = Spaces | Hyphens

  predicate Drops(cut: Cutset, c: char) {
    match cut
    case Spaces => Space(c)
    case Hyphens => c == '-'
  }

  function TrimLeft(s: string, cut: Cutset): string {
    if s != [] && Drops(cut, s[0]) then TrimLeft(s[1..], cut) else s
  }

  function TrimRight(s: string, cut: Cutset): string {
    if s != [] && Drops(cut, s[|s| - 1]) then TrimRight(s[..|s| - 1], cut) else s
  }

  // strings.TrimSpace and strings.Trim(_, "-").
  function Trim(s: string, cut: Cutset): string {
    TrimRight(TrimLeft(s, cut), cut)
  }

  lemma {:induction false} TrimLeftIs(s: string, cut: Cutset) returns (from: nat)
    ensures from <= |s| && TrimLeft(s, cut) == s[from..]
    ensures forall i | 0 <= i < from :: Drops(cut, s[i])
    ensures from < |s| ==> !Drops(cut, s[from])
  {
    from := 0;
    if s != [] && Drops(cut, s[0]) {
      var k := TrimLeftIs(s[1..], cut);
      from := k + 1;
      assert s[1..][k..] == s[from..];
      forall i | 0 <= i < from
        ensures Drops(cut, s[i])
      {
        if i > 0 {
          assert s[1..][i - 1] == s[i];
        }
      }
    }
  }

  lemma {:induction false} TrimRightIs(s: string, cut: Cutset) returns (to: nat)
    ensures to <= |s| && TrimRight(s, cut) == s[..to]
    ensures forall i | to <= i < |s| :: Drops(cut, s[i])
    ensures to > 0 ==> !Drops(cut, s[to - 1])
  {
    to := |s|;
    if s != [] && Drops(cut, s[|s| - 1]) {
      var init := s[..|s| - 1];
      to := TrimRightIs(init, cut);
      assert init[..to] == s[..to];
      forall i | to <= i < |s|
        ensures Drops(cut, s[i])
      {
        if i < |init| {
          assert init[i] == s[i];
        }
      }
    }
  }

  // Trimming removes both ends up to the first and last rune that stays.
  lemma TrimIs(s: string, cut: Cutset) returns (from: nat, to: nat)
    ensures from <= to <= |s| && Trim(s, cut) == s[from..to]
    ensures forall i | 0 <= i < from || to <= i < |s| :: Drops(cut, s[i])
    ensures from < to ==> !Drops(cut, s[from]) && !Drops(cut, s[to - 1])
  {
    from := TrimLeftIs(s, cut);
    var t := s[from..];
    var k := TrimRightIs(t, cut);
    to := from + k;
    assert t[..k] == s[from..to];
    forall i | to <= i < |s|
      ensures Drops(cut, s[i])
    {
      assert s[i] == t[i - from];
    }
    if from < to {
      assert s[to - 1] == t[k - 1];
    }
  }

  // What one rune of the lowered name contributes.
  function Kept(c: char): string {
    if AlphaNumeric(c) then [c]
    else if c == ' ' || c == '.' || c == '-' || c == '_' then "-"
    else ""
  }

  function Hyphenated(s: string): string {
    if s == [] then [] else Hyphenated(s[..|s| - 1]) + Kept(Lower(s[|s| - 1]))
  }

  predicate SlugRune(c: char) {
    AlphaNumeric(c) || c == '-'
  }

  // The name before truncation.
  function Text(value: string): string {
    Trim(Hyphenated(Trim(value, Spaces)), Hyphens)
  }

  function Slug(value: string): string {
    var text := Text(value);
    if |text| > MAX_LENGTH then text[..MAX_LENGTH] else text
  }

  // slugify, with its builder loop.
  method Slugify(value: string) returns (slug: string)
    ensures slug == Slug(value)
  {
    var trimmed := Trim(value, Spaces);
    var builder := "";
    for i := 0 to |trimmed|
      invariant builder == Hyphenated(trimmed[..i])
    {
      assert trimmed[..i + 1][..i] == trimmed[..i];
      var r := Lower(trimmed[i]);
      if AlphaNumeric(r) {
        builder := builder + [r];
      } else if r == ' ' || r == '.' || r == '-' || r == '_' {
        builder := builder + "-";
      }
    }
    assert trimmed[..|trimmed|] == trimmed;
    slug := Trim(builder, Hyphens);
    if |slug| > MAX_LENGTH {
      slug := slug[..MAX_LENGTH];
    }
  }

  // What each rune of a name contributes, by its kind.
  ghost predicate Contributes(c: char, text: string) {
    if 'A' <= c <= 'Z' then
      |text| == 1 && 'a' <= text[0] <= 'z' && text[0] as int - 'a' as int == c as int - 'A' as int
    else if 'a' <= c <= 'z' || '0' <= c <= '9' then text == [c]
    else if c in " .-_" then text == "-"
    else if c in {'\U{0130}', '\U{212A}'} then text == if c == '\U{0130}' then "i" else "k"
    else text == ""
  }

  lemma RuneContributes(c: char)
    ensures Contributes(c, Kept(Lower(c)))
  {
  }

  // In ASCII, white space is the blank and the five controls from tab to return.
  lemma SpaceInAscii(c: char)
    requires c < '\U{0080}'
    ensures Space(c) <==> c == ' ' || 9 <= c as int <= 13
  {
  }

  // A name is hyphenated rune by rune, each for itself.
  lemma {:induction false} HyphenatedConcat(a: string, b: string)
    ensures Hyphenated(a + b) == Hyphenated(a) + Hyphenated(b)
  {
    if b == [] {
      assert a + b == a;
    } else {
      var k := |b| - 1;
      HyphenatedConcat(a, b[..k]);
      assert (a + b)[..|a + b| - 1] == a + b[..k];
      Joins(Hyphenated(a), Hyphenated(b[..k]), Kept(Lower(b[k])));
    }
  }

  lemma Joins(a: string, b: string, c: string)
    ensures a + b + c == a + (b + c)
  {
  }

  ghost predicate OnlyHyphens(s: string) {
    forall i | 0 <= i < |s| :: s[i] == '-'
  }

  lemma {:induction false} SpaceLeavesHyphens(s: string)
    requires forall c | c in s :: Space(c)
    ensures OnlyHyphens(Hyphenated(s))
  {
    if s != [] {
      SpaceLeavesHyphens(s[..|s| - 1]);
      SpaceIsHyphenOrNothing(s[|s| - 1]);
    }
  }

  lemma SpaceIsHyphenOrNothing(c: char)
    requires Space(c)
    ensures Kept(Lower(c)) == "" || Kept(Lower(c)) == "-"
  {
  }

  // h is the text between hyphens.
  ghost predicate Wraps(h: string, before: string, text: string, after: string) {
    h == before + text + after && OnlyHyphens(before) && OnlyHyphens(after)
  }

  lemma TrimWraps(h: string) returns (before: string, after: string)
    ensures Wraps(h, before, Trim(h, Hyphens), after)
  {
    var from, to := TrimIs(h, Hyphens);
    before, after := h[..from], h[to..];
  }

  lemma WrapMore(h: string, before: string, text: string, after: string, left: string, right: string)
    requires Wraps(h, before, text, after) && OnlyHyphens(left) && OnlyHyphens(right)
    ensures Wraps(left + h + right, left + before, text, after + right)
  {
    assert left + (before + text + after) + right == (left + before) + text + (after + right);
  }

  lemma HyphenatedParts(value: string, from: nat, to: nat)
    requires from <= to <= |value|
    ensures Hyphenated(value) == Hyphenated(value[..from]) + Hyphenated(value[from..to]) + Hyphenated(value[to..])
  {
    ThreeParts(value, from, to);
    HyphenatedConcat(value[..from] + value[from..to], value[to..]);
    HyphenatedConcat(value[..from], value[from..to]);
  }

  lemma ThreeParts(value: string, from: nat, to: nat)
    requires from <= to <= |value|
    ensures value == value[..from] + value[from..to] + value[to..]
  {
  }

  // The text is the hyphenated name without its outer hyphens; the outer space
  // of the name makes no difference.
  lemma TextIs(value: string) returns (before: string, after: string)
    ensures Wraps(Hyphenated(value), before, Text(value), after)
    ensures Text(value) != "" ==> Text(value)[0] != '-' && Text(value)[|Text(value)| - 1] != '-'
  {
    var from, to := TrimIs(value, Spaces);
    HyphenatedParts(value, from, to);
    SpaceLeavesHyphens(value[..from]);
    SpaceLeavesHyphens(value[to..]);
    var h := Hyphenated(value[from..to]);
    before, after := TrimWraps(h);
    WrapMore(h, before, Text(value), after, Hyphenated(value[..from]), Hyphenated(value[to..]));
    before, after := Hyphenated(value[..from]) + before, after + Hyphenated(value[to..]);
    TextEdges(value);
  }

  lemma TextEdges(value: string)
    ensures Text(value) != "" ==> Text(value)[0] != '-' && Text(value)[|Text(value)| - 1] != '-'
  {
    var from, to := TrimIs(Hyphenated(Trim(value, Spaces)), Hyphens);
  }

  // The slug is that text, or its first 32 letters.
  lemma SlugIs(value: string)
    ensures |Slug(value)| <= 32 && Slug(value) <= Text(value)
    ensures Slug(value) != Text(value) ==> |Slug(value)| == 32
  {
  }

  ghost predicate SlugLike(s: string) {
    && |s| <= 32
    && (forall i | 0 <= i < |s| :: SlugRune(s[i]))
    && (s != "" ==> AlphaNumeric(s[0]))
  }

  lemma {:induction false} HyphenatedRunes(s: string)
    ensures forall i | 0 <= i < |Hyphenated(s)| :: SlugRune(Hyphenated(s)[i])
  {
    if s != [] {
      var k := |s| - 1;
      HyphenatedRunes(s[..k]);
      var last := Kept(Lower(s[k]));
      assert forall i | 0 <= i < |last| :: SlugRune(last[i]);
    }
  }

  // Every slug is short, uses only a-z, 0-9 and hyphens, and starts with none.
  lemma SlugShape(value: string)
    ensures SlugLike(Slug(value))
  {
    var h := Hyphenated(Trim(value, Spaces));
    HyphenatedRunes(Trim(value, Spaces));
    var from, to := TrimIs(h, Hyphens);
    var slug := Slug(value);
    forall i | 0 <= i < |slug|
      ensures SlugRune(slug[i])
    {
      assert slug[i] == h[from + i];
    }
    if slug != "" {
      assert slug[0] == h[from] && SlugRune(h[from]);
    }
  }

  // A rune that leaves a letter or digit in the slug.
  predicate Keeps(c: char) {
    AlphaNumeric(Lower(c))
  }

  lemma {:induction false} HyphenatedKeeps(s: string)
    ensures AnyKept(s) <==> AnyAlphaNumeric(Hyphenated(s))
  {
    if s != [] {
      var k := |s| - 1;
      var init, last := Hyphenated(s[..k]), Kept(Lower(s[k]));
      HyphenatedKeeps(s[..k]);
      assert Hyphenated(s) == init + last;
      if Keeps(s[k]) {
        assert AlphaNumeric(Hyphenated(s)[|init|]);
      } else {
        assert forall j | 0 <= j < |last| :: !AlphaNumeric(last[j]);
        if i :| 0 <= i < |s| && Keeps(s[i]) {
          assert Keeps(s[..k][i]);
          var j :| 0 <= j < |init| && AlphaNumeric(init[j]);
          assert AlphaNumeric(Hyphenated(s)[j]);
        }
        if j :| 0 <= j < |Hyphenated(s)| && AlphaNumeric(Hyphenated(s)[j]) {
          assert j < |init| && AlphaNumeric(init[j]);
          var i :| 0 <= i < k && Keeps(s[..k][i]);
          assert Keeps(s[i]);
        }
      }
    }
  }

  ghost predicate AnyKept(s: string) {
    exists i | 0 <= i < |s| :: Keeps(s[i])
  }

  ghost predicate AnyAlphaNumeric(s: string) {
    exists i | 0 <= i < |s| :: AlphaNumeric(s[i])
  }

  lemma TrimKeeps(s: string)
    ensures AnyKept(Trim(s, Spaces)) <==> AnyKept(s)
  {
    var from, to := TrimIs(s, Spaces);
    var t := Trim(s, Spaces);
    if i :| 0 <= i < |s| && Keeps(s[i]) {
      assert !Drops(Spaces, s[i]);
      assert t[i - from] == s[i];
    }
    if i :| 0 <= i < |t| && Keeps(t[i]) {
      assert s[from + i] == t[i];
    }
  }

  // A name yields a slug exactly when it has a letter or digit to keep.
  lemma SlugNonEmpty(value: string)
    ensures Slug(value) != "" <==> AnyKept(value)
  {
    var trimmed := Trim(value, Spaces);
    var h := Hyphenated(trimmed);
    TrimKeeps(value);
    HyphenatedKeeps(trimmed);
    SlugShape(value);
    var from, to := TrimIs(h, Hyphens);
    if Slug(value) != "" {
      assert h[from] == Slug(value)[0];
      assert AnyAlphaNumeric(h);
    } else {
      assert forall j | 0 <= j < |h| :: Drops(Hyphens, h[j]);
    }
  }

  lemma {:induction false} HyphenatedSlug(s: string)
    requires forall i | 0 <= i < |s| :: SlugRune(s[i])
    ensures Hyphenated(s) == s
  {
    if s != [] {
      var k := |s| - 1;
      HyphenatedSlug(s[..k]);
      KeptRune(s[k]);
      InitAndLast(s);
    }
  }

  lemma InitAndLast(s: string)
    requires s != []
    ensures s == s[..|s| - 1] + [s[|s| - 1]]
  {
  }

  lemma KeptRune(c: char)
    requires SlugRune(c)
    ensures Kept(Lower(c)) == [c]
  {
  }

  predicate EndsInHyphen(s: string) {
    s != "" && s[|s| - 1] == '-'
  }

  // On a slug, slugify only drops trailing hyphens.
  lemma SlugOfSlug(s: string)
    requires SlugLike(s)
    ensures Slug(s) == TrimRight(s, Hyphens) && SlugLike(Slug(s))
    ensures Slug(s) == s <==> !EndsInHyphen(s)
    ensures !EndsInHyphen(Slug(s))
  {
    if s != [] {
      assert SlugRune(s[|s| - 1]);
    }
    assert Trim(s, Spaces) == s;
    HyphenatedSlug(s);
    var to := TrimRightIs(s, Hyphens);
  }

  // The truncation cuts right behind a hyphen of the text.
  predicate CutsAtHyphen(value: string) {
    var text := Text(value);
    |text| > MAX_LENGTH && text[MAX_LENGTH - 1] == '-'
  }

  // slugify repeats itself exactly when its truncation did not cut at a hyphen.
  lemma SlugIdempotent(value: string)
    ensures Slug(Slug(value)) == Slug(value) <==> !CutsAtHyphen(value)
  {
    SlugShape(value);
    SlugOfSlug(Slug(value));
    TextEnds(value);
  }

  // The text before truncation does not end in a hyphen.
  lemma TextEnds(value: string)
    ensures !EndsInHyphen(Text(value))
  {
    var h := Hyphenated(Trim(value, Spaces));
    var from, to := TrimIs(h, Hyphens);
    if from < to {
      assert Text(value)[|Text(value)| - 1] == h[to - 1];
    }
  }

  // A second application always reaches a fixed point.
  lemma SlugTwiceIsFixed(value: string)
    ensures Slug(Slug(Slug(value))) == Slug(Slug(value))
  {
    SlugShape(value);
    SlugOfSlug(Slug(value));
    SlugOfSlug(Slug(Slug(value)));
  }

  // Any 31-letter name followed by another word gives a slug that ends in a
  // hyphen and is shortened by a second application.
  lemma LongNameKeepsHyphen(name: string)
    requires |name| == 31 && forall i | 0 <= i < |name| :: AlphaNumeric(name[i])
    ensures Slug(name + [' '] + ['b']) == name + ['-']
    ensures Slug(name + ['-']) == name
  {
    TextOfTwoWords(name, name + [' '], name + ['-']);
    assert (name + ['-'] + ['b'])[..MAX_LENGTH] == name + ['-'];
    SlugOfSlug(name + ['-']);
    assert (name + ['-'])[..|name|] == name;
  }

  lemma TextOfTwoWords(name: string, spaced: string, hyphened: string)
    requires name != "" && forall i | 0 <= i < |name| :: AlphaNumeric(name[i])
    requires spaced == name + [' '] && hyphened == name + ['-']
    ensures Text(spaced + ['b']) == hyphened + ['b']
  {
    HyphenatedSlug(name);
    HyphenatedTwoWords(name, spaced, hyphened);
    TextFixed(spaced + ['b'], hyphened + ['b']);
  }

  lemma HyphenatedTwoWords(name: string, spaced: string, hyphened: string)
    requires Hyphenated(name) == name
    requires spaced == name + [' '] && hyphened == name + ['-']
    ensures Hyphenated(spaced + ['b']) == hyphened + ['b']
  {
    HyphenatedSnoc(name, ' ');
    HyphenatedSnoc(spaced, 'b');
  }

  lemma TextFixed(value: string, text: string)
    requires value != "" && text != "" && Hyphenated(value) == text
    requires !Space(value[0]) && !Space(value[|value| - 1]) && text[0] != '-' && text[|text| - 1] != '-'
    ensures Text(value) == text
  {
    TrimFixed(value, Spaces);
    TrimFixed(text, Hyphens);
  }

  lemma TrimFixed(s: string, cut: Cutset)
    requires s != "" && !Drops(cut, s[0]) && !Drops(cut, s[|s| - 1])
    ensures Trim(s, cut) == s
  {
  }

  lemma HyphenatedSnoc(s: string, c: char)
    ensures Hyphenated(s + [c]) == Hyphenated(s) + Kept(Lower(c))
  {
    assert (s + [c])[..|s|] == s;
  }

  // ---- The candidate ----

  function LocalPart(email: string): string {
    if email == "" || email[0] == '@' then "" else [email[0]] + LocalPart(email[1..])
  }

  const TRAVELER := "traveler"

  // It ends in front of the first at sign, if there is one.
  lemma {:induction false} LocalPartIs(email: string)
    ensures LocalPart(email) <= email && '@' !in LocalPart(email)
    ensures |LocalPart(email)| < |email| ==> email[|LocalPart(email)|] == '@'
  {
    if email != "" && email[0] != '@' {
      LocalPartIs(email[1..]);
    }
  }

  // usernameCandidate, with its loop over the two sources of a name.
  method Candidate(name: string, email: string) returns (username: string)
    ensures username == CandidateFor(name, email)
    ensures AnyKept(name) ==> username == Slug(name)
    ensures !AnyKept(name) && AnyKept(LocalPart(email)) ==> username == Slug(LocalPart(email))
    ensures !AnyKept(name) && !AnyKept(LocalPart(email)) ==> username == "traveler"
  {
    SlugNonEmpty(name);
    SlugNonEmpty(LocalPart(email));
    var local := LocalPart(email);
    var candidates := [name, local];
    for i := 0 to |candidates|
      invariant i > 0 ==> Slug(name) == ""
      invariant i > 1 ==> Slug(local) == ""
    {
      var slug := Slugify(candidates[i]);
      if slug != "" {
        return slug;
      }
    }
    return TRAVELER;
  }

  function CandidateFor(name: string, email: string): string {
    if Slug(name) != "" then Slug(name)
    else if Slug(LocalPart(email)) != "" then Slug(LocalPart(email))
    else TRAVELER
  }

  // Every sign-in gets a usable user name.
  lemma CandidateShape(name: string, email: string)
    ensures SlugLike(CandidateFor(name, email)) && CandidateFor(name, email) != ""
  {
    SlugShape(name);
    SlugShape(LocalPart(email));
    TravelerIsSlug();
  }

  lemma TravelerIsSlug()
    ensures SlugLike(TRAVELER)
  {
  }
}
