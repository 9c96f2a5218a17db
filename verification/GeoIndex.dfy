/**
 * The airport coordinate table of app/services/geo.go: how load builds it from
 * the source rows and how Lookup, LookupICAO and Resolve read it.
 * GeoFlight covers concurrent calls.
 */
module GeoIndex {
  import opened Prelude
  import Username

  datatype Coord = Coord(iata: string, icao: string, lat: real, lon: real, name: string)

  type Index = map<string, Coord>

  // Go's unicode.ToUpper for the letters whose upper case is in ASCII.
  function Upper(c: char): char {
    if 'a' <= c <= 'z' then (c as int - 32) as char
    else if c == '\U{0131}' then 'I'
    else if c == '\U{017F}' then 'S'
    else c
  }

  function UpperCase(s: string): string {
    if s == "" then "" else [Upper(s[0])] + UpperCase(s[1..])
  }

  function NormalizeCode(code: string): string {
    UpperCase(Username.Trim(code, Username.Spaces))
  }

  // ---- Codes match regardless of case and surrounding space ----

  predicate SameLetters(a: string, b: string) {
    |a| == |b| && forall i | 0 <= i < |a| :: Upper(a[i]) == Upper(b[i])
  }

  lemma {:induction false} UpperCaseAt(s: string)
    ensures |UpperCase(s)| == |s| && forall i | 0 <= i < |s| :: UpperCase(s)[i] == Upper(s[i])
  {
    if s != "" {
      UpperCaseAt(s[1..]);
    }
  }

  lemma TrimPadded(before: string, s: string, after: string)
    requires forall i | 0 <= i < |before| :: Username.Space(before[i])
    requires forall i | 0 <= i < |after| :: Username.Space(after[i])
    ensures Username.Trim(before + s + after, Username.Spaces) == Username.Trim(s, Username.Spaces)
  {
    var all := before + s + after;
    var from, to := Username.TrimIs(s, Username.Spaces);
    var from', to' := Username.TrimIs(all, Username.Spaces);
    var k := |before|;
    assert forall i | 0 <= i < |s| :: all[k + i] == s[i];
    assert forall i | 0 <= i < |after| :: all[k + |s| + i] == after[i];
    if from < to {
      assert !Username.Drops(Username.Spaces, all[k + from]) && !Username.Drops(Username.Spaces, all[k + to - 1]);
      assert from' == k + from && to' == k + to;
      assert all[k + from..k + to] == s[from..to];
    } else {
      assert forall i | 0 <= i < |s| :: Username.Drops(Username.Spaces, s[i]);
      assert forall i | 0 <= i < |all| :: Username.Space(all[i]);
      assert from' == to';
    }
  }

  lemma SameLettersNormalize(a: string, b: string)
    requires SameLetters(a, b)
    ensures NormalizeCode(a) == NormalizeCode(b)
  {
    var from, to := Username.TrimIs(a, Username.Spaces);
    var from', to' := Username.TrimIs(b, Username.Spaces);
    assert forall i | 0 <= i < |a| :: Username.Drops(Username.Spaces, a[i]) == Username.Drops(Username.Spaces, b[i]);
    assert from < to <==> from' < to';
    if from < to {
      assert from == from' && to == to';
    }
    UpperCaseAt(Username.Trim(a, Username.Spaces));
    UpperCaseAt(Username.Trim(b, Username.Spaces));
  }

  // u is the capital of c; what has no capital in ASCII stands for itself.
  predicate Capital(c: char, u: char) {
    if 'a' <= c <= 'z' then 'A' <= u <= 'Z' && u as int - 'A' as int == c as int - 'a' as int
    else if c in {'\U{0131}', '\U{017F}'} then u == if c == '\U{0131}' then 'I' else 'S'
    else u == c
  }

  // `code` is the stretch of `raw` that starts at `from`, in capitals; what lies
  // outside it is blank, and its first and last rune are not.
  ghost predicate SpellsFrom(raw: string, code: string, from: nat) {
    && from + |code| <= |raw|
    && (forall i | 0 <= i < from || from + |code| <= i < |raw| :: Username.Space(raw[i]))
    && (forall i | 0 <= i < |code| :: Capital(raw[from + i], code[i]))
    && (code != "" ==> !Username.Space(raw[from]) && !Username.Space(raw[from + |code| - 1]))
  }

  ghost predicate Spells(raw: string, code: string) {
    exists from: nat :: SpellsFrom(raw, code, from)
  }

  lemma NormalizeCodeSpells(raw: string) returns (from: nat)
    ensures SpellsFrom(raw, NormalizeCode(raw), from)
  {
    var to;
    from, to := Username.TrimIs(raw, Username.Spaces);
    UpperCaseAt(raw[from..to]);
  }

  lemma SpellingIsUnique(raw: string, a: string, b: string, from: nat, from': nat)
    requires SpellsFrom(raw, a, from) && SpellsFrom(raw, b, from')
    ensures a == b
  {
    if a != "" && b != "" {
      assert from == from' && |a| == |b|;
      forall i | 0 <= i < |a|
        ensures a[i] == b[i]
      {
        assert Capital(raw[from + i], a[i]) && Capital(raw[from + i], b[i]);
      }
    }
  }

  // The normal form of a text is its spelling in capitals, without outer space.
  lemma NormalizeCodeIs(raw: string, code: string)
    ensures NormalizeCode(raw) == code <==> Spells(raw, code)
  {
    var from := NormalizeCodeSpells(raw);
    if from': nat :| SpellsFrom(raw, code, from') {
      SpellingIsUnique(raw, NormalizeCode(raw), code, from, from');
    }
  }

  // Any spelling of a code with other letter case and space around it is the
  // same code.
  lemma SpellingsAgree(code: string, spelling: string, before: string, after: string)
    requires SameLetters(code, spelling)
    requires forall i | 0 <= i < |before| :: Username.Space(before[i])
    requires forall i | 0 <= i < |after| :: Username.Space(after[i])
    ensures NormalizeCode(before + spelling + after) == NormalizeCode(code)
  {
    TrimPadded(before, spelling, after);
    SameLettersNormalize(code, spelling);
  }

  // ---- The table ----

  datatype Kind = Iata | Icao

  function CodeOf(kind: Kind, c: Coord): string {
    match kind
    case Iata => c.iata
    case Icao => c.icao
  }

  function Normalized(c: Coord): Coord {
    c.(iata := NormalizeCode(c.iata), icao := NormalizeCode(c.icao))
  }

  // The last row with the code: a linear scan of the source's answer.
  function Scan(rows: seq<Coord>, kind: Kind, code: string): Option<Coord> {
    if rows == [] then None
    else
      var c := Normalized(rows[|rows| - 1]);
      if CodeOf(kind, c) == code then Some(c) else Scan(rows[..|rows| - 1], kind, code)
  }

  function Get(m: Index, code: string): Option<Coord> {
    if code in m then Some(m[code]) else None
  }

  ghost predicate IsIndex(m: Index, rows: seq<Coord>, kind: Kind) {
    "" !in m && forall code | code != "" :: Get(m, code) == Scan(rows, kind, code)
  }

  lemma IndexStep(m: Index, rows: seq<Coord>, kind: Kind, c: Coord)
    requires IsIndex(m, rows, kind)
    ensures var n := Normalized(c);
            IsIndex(if CodeOf(kind, n) == "" then m else m[CodeOf(kind, n) := n], rows + [c], kind)
  {
    assert (rows + [c])[..|rows|] == rows;
    var n := Normalized(c);
    var m' := if CodeOf(kind, n) == "" then m else m[CodeOf(kind, n) := n];
    forall code | code != ""
      ensures Get(m', code) == Scan(rows + [c], kind, code)
    {
      assert Get(m, code) == Scan(rows, kind, code);
    }
  }

  // The loop of load.
  method BuildIndex(rows: seq<Coord>) returns (byIata: Index, byIcao: Index)
    ensures IsIndex(byIata, rows, Iata) && IsIndex(byIcao, rows, Icao)
  {
    byIata, byIcao := map[], map[];
    for i := 0 to |rows|
      invariant IsIndex(byIata, rows[..i], Iata) && IsIndex(byIcao, rows[..i], Icao)
    {
      var c := Normalized(rows[i]);
      assert rows[..i + 1] == rows[..i] + [rows[i]];
      IndexStep(byIata, rows[..i], Iata, rows[i]);
      IndexStep(byIcao, rows[..i], Icao, rows[i]);
      if c.iata != "" {
        byIata := byIata[c.iata := c];
      }
      if c.icao != "" {
        byIcao := byIcao[c.icao := c];
      }
    }
    assert rows[..|rows|] == rows;
  }

  predicate Matches(c: Coord, kind: Kind, code: string) {
    NormalizeCode(CodeOf(kind, c)) == code
  }

  // The position of the last matching row, or -1.
  function LastMatch(rows: seq<Coord>, kind: Kind, code: string): (i: int)
    ensures -1 <= i < |rows|
  {
    if rows == [] || Matches(rows[|rows| - 1], kind, code) then |rows| - 1
    else LastMatch(rows[..|rows| - 1], kind, code)
  }

  // That row matches, and no row after it does.
  lemma {:induction false} LastMatchIs(rows: seq<Coord>, kind: Kind, code: string, j: nat)
    requires j < |rows|
    ensures var i := LastMatch(rows, kind, code);
            (i < j ==> !Matches(rows[j], kind, code)) && (i == j ==> Matches(rows[j], kind, code))
  {
    if j < |rows| - 1 && !Matches(rows[|rows| - 1], kind, code) {
      LastMatchIs(rows[..|rows| - 1], kind, code, j);
    }
  }

  // The scan returns that row, normalised.
  lemma {:induction false} ScanIsLastMatch(rows: seq<Coord>, kind: Kind, code: string)
    ensures var i := LastMatch(rows, kind, code);
            Scan(rows, kind, code) == if i == -1 then None else Some(Normalized(rows[i]))
  {
    if rows != [] && !Matches(rows[|rows| - 1], kind, code) {
      ScanIsLastMatch(rows[..|rows| - 1], kind, code);
    }
  }

  // ---- What a lookup owes its caller, said of the source's rows alone ----

  // The position and the name are those of the row, the codes its normal forms.
  predicate Shows(c: Coord, row: Coord) {
    && c.lat == row.lat && c.lon == row.lon && c.name == row.name
    && c.iata == NormalizeCode(row.iata) && c.icao == NormalizeCode(row.icao)
  }

  // Row i has the code, and no later row has it.
  ghost predicate LastWith(rows: seq<Coord>, kind: Kind, code: string, i: nat) {
    i < |rows| && Matches(rows[i], kind, code) && forall j | i < j < |rows| :: !Matches(rows[j], kind, code)
  }

  // A blank code has no answer, nor has one without a row.
  ghost predicate IsAnswer(rows: seq<Coord>, kind: Kind, code: string, coord: Option<Coord>) {
    match coord
    case None => code != "" ==> forall j | 0 <= j < |rows| :: !Matches(rows[j], kind, code)
    case Some(c) => code != "" && exists i: nat :: LastWith(rows, kind, code, i) && Shows(c, rows[i])
  }

  lemma {:induction false} ScanAnswers(rows: seq<Coord>, kind: Kind, code: string)
    requires code != ""
    ensures IsAnswer(rows, kind, code, Scan(rows, kind, code))
    ensures Scan(rows, kind, code).Some? ==> CodeOf(kind, Scan(rows, kind, code).value) == code
  {
    var i := LastMatch(rows, kind, code);
    ScanIsLastMatch(rows, kind, code);
    forall j | 0 <= j < |rows|
      ensures (i < j ==> !Matches(rows[j], kind, code)) && (i == j ==> Matches(rows[j], kind, code))
    {
      LastMatchIs(rows, kind, code, j);
    }
    assert i >= 0 ==> LastWith(rows, kind, code, i) && Shows(Normalized(rows[i]), rows[i]);
  }

  // There is one such answer, and it is the one of the scan.
  lemma AnswerIs(rows: seq<Coord>, kind: Kind, code: string, coord: Option<Coord>)
    ensures IsAnswer(rows, kind, code, coord) <==> coord == if code == "" then None else Scan(rows, kind, code)
  {
    if code != "" {
      ScanAnswers(rows, kind, code);
    }
  }

  // ---- Batches ----

  // The codes asked for: normalised, without blanks and repeats, in the order
  // in which they first occur.
  function Wanted(codes: seq<string>): seq<string> {
    if codes == [] then []
    else
      var before, code := Wanted(codes[..|codes| - 1]), NormalizeCode(codes[|codes| - 1]);
      if code == "" || code in before then before else before + [code]
  }

  function Missing(wanted: seq<string>, rows: seq<Coord>): seq<string> {
    if wanted == [] then []
    else
      var code := wanted[|wanted| - 1];
      Missing(wanted[..|wanted| - 1], rows) + if Scan(rows, Iata, code) == None then [code] else []
  }

  ghost predicate Occurs(code: string, codes: seq<string>) {
    exists p | 0 <= p < |codes| :: NormalizeCode(codes[p]) == code
  }

  // a is asked for somewhere before b is asked for at all.
  ghost predicate FirstBefore(a: string, b: string, codes: seq<string>) {
    exists p | 0 <= p < |codes| ::
      NormalizeCode(codes[p]) == a && forall q | 0 <= q <= p :: NormalizeCode(codes[q]) != b
  }

  lemma {:induction false} WantedIs(codes: seq<string>)
    ensures forall code :: code in Wanted(codes) <==> code != "" && Occurs(code, codes)
    ensures forall i, j | 0 <= i < j < |Wanted(codes)| :: Wanted(codes)[i] != Wanted(codes)[j]
    ensures forall i, j | 0 <= i < j < |Wanted(codes)| :: FirstBefore(Wanted(codes)[i], Wanted(codes)[j], codes)
  {
    if codes != [] {
      var init, last := codes[..|codes| - 1], NormalizeCode(codes[|codes| - 1]);
      WantedIs(init);
      assert NormalizeCode(codes[|init|]) == last;
      OccursSnoc(codes);
      var w := Wanted(codes);
      forall i, j | 0 <= i < j < |w|
        ensures w[i] != w[j] && FirstBefore(w[i], w[j], codes)
      {
        if j < |Wanted(init)| {
          assert FirstBefore(Wanted(init)[i], Wanted(init)[j], init);
          FirstBeforeMore(w[i], w[j], codes);
        } else {
          assert w[i] in Wanted(init) && !Occurs(w[j], init);
          var p :| 0 <= p < |init| && NormalizeCode(init[p]) == w[i];
          assert forall q | 0 <= q <= p :: NormalizeCode(codes[q]) != w[j] by {
            assert forall q | 0 <= q <= p :: init[q] == codes[q];
          }
          assert NormalizeCode(codes[p]) == w[i];
        }
      }
    }
  }

  lemma OccursSnoc(codes: seq<string>)
    requires codes != []
    ensures forall code ::
              Occurs(code, codes) <==> Occurs(code, codes[..|codes| - 1]) || code == NormalizeCode(codes[|codes| - 1])
  {
    var init := codes[..|codes| - 1];
    forall code
      ensures Occurs(code, codes) <==> Occurs(code, init) || code == NormalizeCode(codes[|init|])
    {
      if p :| 0 <= p < |init| && NormalizeCode(init[p]) == code {
        assert NormalizeCode(codes[p]) == code;
      }
      if p :| 0 <= p < |codes| && NormalizeCode(codes[p]) == code && p < |init| {
        assert NormalizeCode(init[p]) == code;
      }
    }
  }

  lemma FirstBeforeMore(a: string, b: string, codes: seq<string>)
    requires codes != [] && FirstBefore(a, b, codes[..|codes| - 1])
    ensures FirstBefore(a, b, codes)
  {
    var init := codes[..|codes| - 1];
    var p :| 0 <= p < |init| && NormalizeCode(init[p]) == a && forall q | 0 <= q <= p :: NormalizeCode(init[q]) != b;
    assert NormalizeCode(codes[p]) == a;
    assert forall q | 0 <= q <= p :: codes[q] == init[q];
  }

  // What Resolve returns for the rows of one table.
  ghost predicate Resolves(codes: seq<string>, rows: seq<Coord>, resolved: Index, unresolved: seq<string>) {
    && (forall code :: code in resolved <==> code in Wanted(codes) && Scan(rows, Iata, code).Some?)
    && (forall code | code in resolved :: Some(resolved[code]) == Scan(rows, Iata, code))
    && unresolved == Missing(Wanted(codes), rows)
  }

  lemma {:induction false} MissingIs(wanted: seq<string>, rows: seq<Coord>)
    ensures forall code :: code in Missing(wanted, rows) <==> code in wanted && Scan(rows, Iata, code) == None
  {
    if wanted != [] {
      MissingIs(wanted[..|wanted| - 1], rows);
      assert wanted == wanted[..|wanted| - 1] + [wanted[|wanted| - 1]];
    }
  }

  ghost predicate ComesBefore(a: string, b: string, codes: seq<string>) {
    exists p, q | 0 <= p < q < |codes| :: codes[p] == a && codes[q] == b
  }

  // Of two codes that miss a row, the one wanted first comes first.
  ghost predicate InOrderOf(wanted: seq<string>, some: seq<string>) {
    forall i, j | 0 <= i < j < |some| :: ComesBefore(some[i], some[j], wanted)
  }

  lemma {:induction false} MissingInOrder(wanted: seq<string>, rows: seq<Coord>)
    ensures InOrderOf(wanted, Missing(wanted, rows))
  {
    if wanted != [] {
      var init, m := wanted[..|wanted| - 1], Missing(wanted, rows);
      var before := Missing(init, rows);
      MissingInOrder(init, rows);
      MissingIs(init, rows);
      forall i, j | 0 <= i < j < |m|
        ensures ComesBefore(m[i], m[j], wanted)
      {
        if j < |before| {
          assert ComesBefore(before[i], before[j], init);
          var p, q :| 0 <= p < q < |init| && init[p] == before[i] && init[q] == before[j];
          assert wanted[p] == m[i] && wanted[q] == m[j];
        } else {
          assert before[i] in init;
          var p :| 0 <= p < |init| && init[p] == before[i];
          assert wanted[p] == m[i] && wanted[|init|] == m[j];
        }
      }
    }
  }

  // What Resolve owes its caller: every code asked for is answered on exactly one
  // side, those without a row once each and in the order they were asked for.
  ghost predicate Splits(codes: seq<string>, rows: seq<Coord>, resolved: Index, unresolved: seq<string>) {
    && (forall code :: code != "" && Occurs(code, codes) <==> code in resolved || code in unresolved)
    && (forall code | code in resolved ::
          code !in unresolved && resolved[code].iata == code && IsAnswer(rows, Iata, code, Some(resolved[code])))
    && (forall code | code in unresolved :: IsAnswer(rows, Iata, code, None))
    && (forall i, j | 0 <= i < j < |unresolved| ::
          unresolved[i] != unresolved[j] && FirstBefore(unresolved[i], unresolved[j], codes))
  }

  lemma ResolveSplits(codes: seq<string>, rows: seq<Coord>, resolved: Index, unresolved: seq<string>)
    requires Resolves(codes, rows, resolved, unresolved)
    ensures Splits(codes, rows, resolved, unresolved)
  {
    WantedIs(codes);
    MissingIs(Wanted(codes), rows);
    MissingInOrder(Wanted(codes), rows);
    forall code | code in Wanted(codes)
      ensures IsAnswer(rows, Iata, code, Scan(rows, Iata, code))
      ensures Scan(rows, Iata, code).Some? ==> Scan(rows, Iata, code).value.iata == code
    {
      ScanAnswers(rows, Iata, code);
    }
  }

  // ---- The resolver ----

  class GeoResolver {
    const ttl: int
    const hasSource: bool
    var byIata: Index
    var byIcao: Index
    var loadedAt: Option<int>
    ghost var rows: seq<Coord>

    // The tables index the rows of the last successful response.
    ghost predicate Valid()
      reads this
    {
      && IsIndex(byIata, rows, Iata) && IsIndex(byIcao, rows, Icao)
      && (loadedAt == None ==> rows == [])
    }

    constructor (ttl: int, hasSource: bool)
      ensures Valid() && rows == [] && loadedAt == None
      ensures this.ttl == ttl && this.hasSource == hasSource
    {
      this.ttl, this.hasSource := ttl, hasSource;
      byIata, byIcao, loadedAt, rows := map[], map[], None, [];
    }

    predicate Stale(now: int)
      reads this
    {
      loadedAt == None || now - loadedAt.value >= ttl
    }

    // load; `answer` is what the source returns, None for an error.
    method Load(answer: Option<seq<Coord>>, now: int) returns (count: Option<nat>)
      requires Valid()
      modifies this
      ensures Valid()
      ensures hasSource && answer.Some? ==>
                rows == answer.value && loadedAt == Some(now) && count == Some(|byIata|)
      ensures !(hasSource && answer.Some?) ==>
                count == None && byIata == old(byIata) && byIcao == old(byIcao)
                && loadedAt == old(loadedAt) && rows == old(rows)
    {
      if !hasSource || answer == None {
        return None;
      }
      var iata, icao := BuildIndex(answer.value);
      byIata := iata;
      byIcao := icao;
      loadedAt := Some(now);
      rows := answer.value;
      return Some(|byIata|);
    }

    // The rows that answer a call at `now` when the source would give `answer`.
    ghost function Current(answer: Option<seq<Coord>>, now: int): seq<Coord>
      reads this
    {
      if Stale(now) && hasSource && answer.Some? then answer.value else rows
    }

    method EnsureLoaded(answer: Option<seq<Coord>>, now: int)
      requires Valid()
      modifies this
      ensures Valid() && rows == old(Current(answer, now))
      ensures hasSource && answer.Some? && (old(loadedAt) == None || now - old(loadedAt).value >= ttl) ==>
                rows == answer.value && loadedAt == Some(now)
      ensures !hasSource || answer == None || (old(loadedAt).Some? && now - old(loadedAt).value < ttl) ==>
                rows == old(rows) && loadedAt == old(loadedAt)
    {
      if !Stale(now) {
        return;
      }
      var count := Load(answer, now);
    }

    method Lookup(iata: string, answer: Option<seq<Coord>>, now: int) returns (coord: Option<Coord>)
      requires Valid()
      modifies this
      ensures Valid()
      ensures NormalizeCode(iata) == "" ==> coord == None && rows == old(rows) && loadedAt == old(loadedAt)
      ensures NormalizeCode(iata) != "" ==>
                rows == old(Current(answer, now)) && coord == Scan(rows, Iata, NormalizeCode(iata))
      ensures IsAnswer(rows, Iata, NormalizeCode(iata), coord)
      ensures coord.Some? ==> coord.value.iata == NormalizeCode(iata)
    {
      var code := NormalizeCode(iata);
      if code == "" {
        return None;
      }
      EnsureLoaded(answer, now);
      ScanAnswers(rows, Iata, code);
      return Get(byIata, code);
    }

    method LookupIcao(icao: string, answer: Option<seq<Coord>>, now: int) returns (coord: Option<Coord>)
      requires Valid()
      modifies this
      ensures Valid()
      ensures NormalizeCode(icao) == "" ==> coord == None && rows == old(rows) && loadedAt == old(loadedAt)
      ensures NormalizeCode(icao) != "" ==>
                rows == old(Current(answer, now)) && coord == Scan(rows, Icao, NormalizeCode(icao))
      ensures IsAnswer(rows, Icao, NormalizeCode(icao), coord)
      ensures coord.Some? ==> coord.value.icao == NormalizeCode(icao)
    {
      var code := NormalizeCode(icao);
      if code == "" {
        return None;
      }
      EnsureLoaded(answer, now);
      ScanAnswers(rows, Icao, code);
      return Get(byIcao, code);
    }

    method Resolve(codes: seq<string>, answer: Option<seq<Coord>>, now: int)
      returns (resolved: Index, unresolved: seq<string>)
      requires Valid()
      modifies this
      ensures Valid()
      ensures rows == if codes == [] then old(rows) else old(Current(answer, now))
      ensures Resolves(codes, rows, resolved, unresolved) && Splits(codes, rows, resolved, unresolved)
    {
      if codes == [] {
        ResolveSplits(codes, rows, map[], []);
        return map[], [];
      }
      EnsureLoaded(answer, now);
      resolved, unresolved := ResolveIn(codes, byIata, rows);
      ResolveSplits(codes, rows, resolved, unresolved);
    }
  }

  // The loop of Resolve over one table.
  method ResolveIn(codes: seq<string>, byIata: Index, ghost rows: seq<Coord>)
    returns (resolved: Index, unresolved: seq<string>)
    requires IsIndex(byIata, rows, Iata)
    ensures Resolves(codes, rows, resolved, unresolved)
  {
    resolved, unresolved := map[], [];
    var seen: set<string> := {};
    for i := 0 to |codes|
      invariant forall code :: code in seen <==> code in Wanted(codes[..i])
      invariant "" !in seen
      invariant Resolves(codes[..i], rows, resolved, unresolved)
    {
      var code := NormalizeCode(codes[i]);
      assert codes[..i + 1][..i] == codes[..i];
      if code == "" || code in seen {
        continue;
      }
      seen := seen + {code};
      WantedSnoc(codes, i, rows);
      if Get(byIata, code).Some? {
        resolved := resolved[code := byIata[code]];
        continue;
      }
      unresolved := unresolved + [code];
    }
    assert codes[..|codes|] == codes;
  }

  lemma WantedSnoc(codes: seq<string>, i: nat, rows: seq<Coord>)
    requires i < |codes| && NormalizeCode(codes[i]) != "" && NormalizeCode(codes[i]) !in Wanted(codes[..i])
    ensures var code := NormalizeCode(codes[i]);
            && Wanted(codes[..i + 1]) == Wanted(codes[..i]) + [code]
            && Missing(Wanted(codes[..i + 1]), rows) ==
                 Missing(Wanted(codes[..i]), rows) + (if Scan(rows, Iata, code) == None then [code] else [])
  {
    var w := Wanted(codes[..i]);
    assert codes[..i + 1][..i] == codes[..i];
    assert (w + [NormalizeCode(codes[i])])[..|w|] == w;
  }
}
