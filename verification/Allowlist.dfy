/**
 The service-identity allowlist: the parser of its environment variable, the identities a client
 certificate offers, and the guard that resolves a call's tenant from the two.
 */
module Allowlist {
  import opened Common
  import opened Text

  type Registry = map<string, int>

  datatype Failure = Missing | Malformed(entry: string) | BadTenant(entry: string) | NoEntries

  // --- The parser ----------------------------------------------------------------------------------

  /** One trimmed, non-empty entry; the identity ends at the last colon. */
  function ParseEntry(entry: string): Result<(string, int), Failure> {
    var separatorIndex := LastIndexOf(entry, ':');
    if separatorIndex <= 0 || separatorIndex == |entry| - 1 then Err(Malformed(entry))
    else
      match ParseInt(entry[separatorIndex + 1..])
      case None => Err(BadTenant(entry))
      case Some(tenantId) =>
        // An infinite number is no integer.
        if tenantId <= 0 || tenantId >= INFINITE_FROM then Err(BadTenant(entry))
        else Ok((entry[..separatorIndex], tenantId))
  }

  function ParseEntries(entries: Registry, trimmed: seq<string>): Result<Registry, Failure>
    decreases |trimmed|
  {
    if trimmed == [] then Ok(entries)
    else if trimmed[0] == "" then ParseEntries(entries, trimmed[1..])
    else
      var (identity, tenantId) :- ParseEntry(trimmed[0]);
      ParseEntries(entries[identity := tenantId], trimmed[1..])
  }

  /** What the variable's value stands for; `None` is an unset variable. */
  function Parse(raw: Option<string>): Result<Registry, Failure> {
    if raw.None? || Trim(raw.value) == "" then Err(Missing)
    else
      var entries :- ParseEntries(map[], Map(Trim, Split(Trim(raw.value), ',')));
      if entries == map[] then Err(NoEntries) else Ok(entries)
  }

  /** What is left to parse before part `i`, in terms of what is left after it. */
  lemma ParseEntriesFrom(entries: Registry, raw: seq<string>, i: nat)
    requires i < |raw|
    ensures ParseEntries(entries, Map(Trim, raw[i..])) ==
      var entry := Trim(raw[i]);
      if entry == "" then ParseEntries(entries, Map(Trim, raw[i + 1..]))
      else
        match ParseEntry(entry)
        case Err(failure) => Err(failure)
        case Ok(pair) => ParseEntries(entries[pair.0 := pair.1], Map(Trim, raw[i + 1..]))
  {
    var trimmed := Map(Trim, raw[i..]);
    assert trimmed[0] == Trim(raw[i]) && trimmed[1..] == Map(Trim, raw[i + 1..]);
  }

  lemma EntryOutcome(entry: string, separatorIndex: int, tenantId: Option<int>)
    requires separatorIndex == LastIndexOf(entry, ':') && 0 < separatorIndex < |entry| - 1
    requires tenantId == ParseInt(entry[separatorIndex + 1..])
    ensures ParseEntry(entry) ==
      if tenantId.None? || tenantId.value <= 0 || tenantId.value >= INFINITE_FROM then Err(BadTenant(entry))
      else Ok((entry[..separatorIndex], tenantId.value))
  {
  }

  /** The loop over the comma-separated parts, filling the map. */
  method ReadEntries(raw: seq<string>) returns (r: Result<Registry, Failure>)
    ensures r == ParseEntries(map[], Map(Trim, raw))
  {
    var entries: Registry := map[];
    ghost var wanted := ParseEntries(map[], Map(Trim, raw));
    assert raw[0..] == raw;
    var i := 0;
    while i < |raw|
      invariant 0 <= i <= |raw|
      invariant wanted == ParseEntries(entries, Map(Trim, raw[i..]))
    {
      ParseEntriesFrom(entries, raw, i);
      var entry := Trim(raw[i]);
      i := i + 1;
      if entry == "" {
        continue;
      }
      var separatorIndex := LastIndexOf(entry, ':');
      if separatorIndex <= 0 || separatorIndex == |entry| - 1 {
        return Err(Malformed(entry));
      }
      var tenantId := ParseInt(entry[separatorIndex + 1..]);
      EntryOutcome(entry, separatorIndex, tenantId);
      if tenantId.None? || tenantId.value <= 0 || tenantId.value >= INFINITE_FROM {
        return Err(BadTenant(entry));
      }
      entries := entries[entry[..separatorIndex] := tenantId.value];
    }
    assert wanted == Ok(entries) by {
      assert Map(Trim, raw[i..]) == [];
    }
    r := Ok(entries);
  }

  method LoadServiceIdentityRegistry(variable: Option<string>) returns (r: Result<Registry, Failure>)
    ensures r == Parse(variable)
  {
    if variable.None? || Trim(variable.value) == "" {
      return Err(Missing);
    }
    r := ReadEntries(Split(Trim(variable.value), ','));
    if r == Ok(map[]) {
      r := Err(NoEntries);
    }
  }

  // --- The printer ---------------------------------------------------------------------------------

  /** A stretch of a written list: an entry with blanks around it, or nothing but blanks. */
  datatype Piece = Entry(before: string, identity: string, tenantId: nat, after: string) | Empty(blanks: string)

  predicate WellFormed(p: Piece) {
    match p
    case Empty(blanks) => IsBlank(blanks)
    case Entry(before, identity, tenantId, after) =>
      && IsBlank(before) && IsBlank(after)
      && identity != "" && ',' !in identity && !IsSpace(identity[0])
      && 0 < tenantId < INFINITE_FROM
  }

  function Bare(p: Piece): string {
    match p
    case Empty(_) => ""
    case Entry(_, identity, tenantId, _) => identity + [':'] + Decimal(tenantId)
  }

  function Written(p: Piece): string {
    match p
    case Empty(blanks) => blanks
    case Entry(before, _, _, after) => before + Bare(p) + after
  }

  function Render(pieces: seq<Piece>): string {
    Join(Map(Written, pieces), ',')
  }

  function LastWins(entries: Registry, pieces: seq<Piece>): Registry
    decreases |pieces|
  {
    if pieces == [] then entries
    else if pieces[0].Empty? then LastWins(entries, pieces[1..])
    else LastWins(entries[pieces[0].identity := pieces[0].tenantId], pieces[1..])
  }

  /** The map holds, for each identity in the list, the tenant of its last entry, and nothing else. */
  lemma {:induction false} LastWinsIsLast(entries: Registry, pieces: seq<Piece>, k: nat)
    requires k < |pieces| && pieces[k].Entry?
    requires forall j :: k < j < |pieces| && pieces[j].Entry? ==> pieces[j].identity != pieces[k].identity
    ensures pieces[k].identity in LastWins(entries, pieces)
    ensures LastWins(entries, pieces)[pieces[k].identity] == pieces[k].tenantId
    decreases |pieces|
  {
    var rest := if pieces[0].Empty? then entries else entries[pieces[0].identity := pieces[0].tenantId];
    if k > 0 {
      LastWinsIsLast(rest, pieces[1..], k - 1);
    } else {
      LastWinsKeeps(rest, pieces[1..], pieces[0].identity);
    }
  }

  lemma {:induction false} LastWinsKeeps(entries: Registry, pieces: seq<Piece>, identity: string)
    requires forall j :: 0 <= j < |pieces| && pieces[j].Entry? ==> pieces[j].identity != identity
    ensures identity in LastWins(entries, pieces) <==> identity in entries
    ensures identity in entries ==> LastWins(entries, pieces)[identity] == entries[identity]
    decreases |pieces|
  {
    if pieces == [] {
    } else {
      LastWinsKeeps(if pieces[0].Empty? then entries else entries[pieces[0].identity := pieces[0].tenantId],
                    pieces[1..], identity);
    }
  }

  // --- Trimming the whole and trimming each part ---------------------------------------------------

  lemma {:induction false} SplitAfterBlanks(w: string, s: string, sep: char)
    requires sep !in w
    ensures Split(w + s, sep) == [w + Split(s, sep)[0]] + Split(s, sep)[1..]
  {
    var parts := Split(s, sep);
    if w == "" {
      assert w + s == s && w + parts[0] == parts[0];
    } else {
      assert (w + s)[1..] == w[1..] + s;
      SplitAfterBlanks(w[1..], s, sep);
      assert [w[0]] + (w[1..] + parts[0]) == w + parts[0];
    }
  }

  lemma {:induction false} SplitBeforeBlanks(s: string, w: string, sep: char)
    requires sep !in w
    ensures Split(s + w, sep) == AppendToLast(Split(s, sep), w)
  {
    if s == "" {
      assert s + w == w && "" + w == w;
      SplitUnseparated(w, sep);
    } else {
      SplitBeforeBlanks(s[1..], w, sep);
      assert (s + w)[1..] == s[1..] + w && (s + w)[0] == s[0];
      ExtendFirst(Split(s[1..], sep), s[0], w);
    }
  }

  function AppendToLast(parts: seq<string>, w: string): seq<string>
    requires parts != []
  {
    parts[..|parts| - 1] + [parts[|parts| - 1] + w]
  }

  lemma ExtendFirst(rest: seq<string>, c: char, w: string)
    requires rest != []
    ensures var longer := AppendToLast(rest, w);
      && [""] + longer == AppendToLast([""] + rest, w)
      && [[c] + longer[0]] + longer[1..] == AppendToLast([[c] + rest[0]] + rest[1..], w)
  {
    if |rest| == 1 {
      assert [c] + (rest[0] + w) == ([c] + rest[0]) + w;
    }
  }

  lemma TrimDropsBlanks(before: string, s: string, after: string)
    requires IsBlank(before) && IsBlank(after)
    ensures Trim(before + s) == Trim(s)
    ensures Trim(s + after) == Trim(s)
  {
    TrimStartDropsBlanks(before, s);
    var w := TrimStartSplits(s);
    var core := TrimStart(s);
    if core == "" {
      assert s + after == w + (core + after) && core + after == after + "";
      TrimStartDropsBlanks(w, after + "");
      TrimStartDropsBlanks(after, "");
    } else {
      assert s + after == w + (core + after);
      TrimStartDropsBlanks(w, core + after);
      TrimStartTrimmed(s);
      assert TrimStart(core + after) == core + after;
      TrimEndDropsBlanks(core, after);
    }
  }

  lemma {:induction false} TrimStartTrimmed(s: string)
    ensures TrimStart(s) != "" ==> !IsSpace(TrimStart(s)[0])
  {
    if s != "" && IsSpace(s[0]) { TrimStartTrimmed(s[1..]); }
  }

  lemma BlanksHaveNoComma(w: string)
    requires IsBlank(w)
    ensures ',' !in w
  {
  }

  lemma TrimLastPart(parts: seq<string>, after: string)
    requires parts != [] && IsBlank(after)
    ensures Map(Trim, AppendToLast(parts, after)) == Map(Trim, parts)
  {
    TrimDropsBlanks("", parts[|parts| - 1], after);
  }

  lemma TrimFirstPart(before: string, parts: seq<string>)
    requires parts != [] && IsBlank(before)
    ensures Map(Trim, [before + parts[0]] + parts[1..]) == Map(Trim, parts)
  {
    TrimDropsBlanks(before, parts[0], "");
  }

  /** Trimming the whole list first makes no difference to its trimmed parts. */
  lemma TrimWholeTrimParts(s: string)
    ensures Map(Trim, Split(Trim(s), ',')) == Map(Trim, Split(s, ','))
  {
    var before := TrimStartSplits(s);
    var middle := TrimStart(s);
    var after := TrimEndSplits(middle);
    BlanksHaveNoComma(before);
    BlanksHaveNoComma(after);
    SplitAfterBlanks(before, middle, ',');
    TrimFirstPart(before, Split(middle, ','));
    SplitBeforeBlanks(Trim(s), after, ',');
    TrimLastPart(Split(Trim(s), ','), after);
  }

  // --- The round trip ------------------------------------------------------------------------------

  lemma WrittenTrims(p: Piece)
    requires WellFormed(p)
    ensures Trim(Written(p)) == Bare(p) && ',' !in Written(p)
  {
    match p
    case Empty(blanks) =>
      assert blanks + "" + "" == blanks;
      TrimPadded(blanks, "", "");
      BlanksHaveNoComma(blanks);
    case Entry(before, identity, tenantId, after) =>
      var digits := Decimal(tenantId);
      assert Bare(p)[0] == identity[0] && Bare(p)[|Bare(p)| - 1] == digits[|digits| - 1];
      assert IsDigit(digits[|digits| - 1]);
      TrimPadded(before, Bare(p), after);
      BlanksHaveNoComma(before);
      BlanksHaveNoComma(after);
      assert ',' !in digits;
  }

  /** A tenant as the parser takes it: a positive finite number without a minus sign, and what follows it. */
  predicate Accepted(w: IntText) {
    w.Valid() && w.sign != "-" && 0 < NumeralValue(w.digits) < INFINITE_FROM
  }

  lemma CutAtLastColon(identity: string, tail: string)
    requires ':' !in tail
    ensures var entry := identity + [':'] + tail;
      && LastIndexOf(entry, ':') == |identity|
      && entry[..|identity|] == identity && entry[|identity| + 1..] == tail
  {
    LastIndexOfCut(identity, ':', tail);
  }

  lemma AcceptedEntryParses(identity: string, w: IntText)
    requires identity != "" && Accepted(w) && ':' !in w.Text()
    ensures ParseEntry(identity + [':'] + w.Text()) == Ok((identity, NumeralValue(w.digits)))
  {
    CutAtLastColon(identity, w.Text());
    WrittenIsRead(w);
    EntryOutcome(identity + [':'] + w.Text(), |identity|, Some(w.Value()));
  }

  lemma ParsedTenantIsAccepted(tail: string) returns (w: IntText)
    requires ParseInt(tail).Some? && 0 < ParseInt(tail).value < INFINITE_FROM
    ensures Accepted(w) && w.Text() == tail
  {
    w := ReadIsWritten(tail);
  }

  ghost predicate AcceptedTenant(tail: string) {
    exists w :: Accepted(w) && w.Text() == tail
  }

  /**
   What an entry may say, its identity ending at the last colon: it is accepted if and only if its
   tenant is blanks, an optional plus sign, digits of positive value that a double can hold, and a rest
   that starts with no digit; the tenant is then the value of the digits.
   */
  lemma EntryParsesExactly(identity: string, tail: string)
    requires identity != "" && ':' !in tail
    ensures ParseEntry(identity + [':'] + tail).Ok? <==> AcceptedTenant(tail)
    ensures forall w :: Accepted(w) && w.Text() == tail ==>
              ParseEntry(identity + [':'] + tail) == Ok((identity, NumeralValue(w.digits)))
  {
    var entry := identity + [':'] + tail;
    CutAtLastColon(identity, tail);
    forall w | Accepted(w) && w.Text() == tail
      ensures ParseEntry(entry) == Ok((identity, NumeralValue(w.digits)))
    {
      AcceptedEntryParses(identity, w);
    }
    if ParseEntry(entry).Ok? {
      EntryOutcome(entry, |identity|, ParseInt(tail));
      var w := ParsedTenantIsAccepted(tail);
    }
  }

  /** What the error text asks for: the tenant, blanks and plus sign apart, is a positive integer. */
  ghost predicate PositiveInteger(tail: string) {
    exists w :: Accepted(w) && w.Text() == tail && w.rest == ""
  }

  /** An accepted tenant keeps that promise if and only if nothing follows its digits. */
  lemma IntegerExactly(w: IntText)
    requires Accepted(w)
    ensures PositiveInteger(w.Text()) <==> w.rest == ""
  {
    if w' :| Accepted(w') && w'.Text() == w.Text() && w'.rest == "" {
      WrittenOnce(w, w');
    }
  }

  /** One loose spelling of a tenant: what may stand before and after its digits. */
  predicate Loose(blanks: string, sign: string, rest: string) {
    && IsBlank(blanks) && (sign == "" || sign == "+")
    && (rest == "" || !IsDigit(rest[0])) && ':' !in blanks && ':' !in rest
  }

  /** Blanks and a plus sign before the digits and text after them are ignored. */
  lemma LooseEntries(identity: string, tenantId: nat, blanks: string, sign: string, rest: string)
    requires identity != "" && 0 < tenantId < INFINITE_FROM && Loose(blanks, sign, rest)
    ensures ParseEntry(identity + [':'] + (blanks + (sign + (Decimal(tenantId) + rest)))) == Ok((identity, tenantId))
  {
    var w := IntText(blanks, sign, Decimal(tenantId), rest);
    assert ':' !in Decimal(tenantId) && ':' !in w.Text();
    AcceptedEntryParses(identity, w);
  }

  lemma BareParses(p: Piece)
    requires WellFormed(p) && p.Entry?
    ensures Bare(p) != "" && ParseEntry(Bare(p)) == Ok((p.identity, p.tenantId))
  {
    var w := IntText("", "", Decimal(p.tenantId), "");
    assert w.Text() == Decimal(p.tenantId) && ':' !in Decimal(p.tenantId);
    AcceptedEntryParses(p.identity, w);
  }

  lemma {:induction false} BareEntriesParse(entries: Registry, pieces: seq<Piece>)
    requires forall i :: 0 <= i < |pieces| ==> WellFormed(pieces[i])
    ensures ParseEntries(entries, Map(Bare, pieces)) == Ok(LastWins(entries, pieces))
    decreases |pieces|
  {
    if pieces == [] {
    } else {
      var p, bare := pieces[0], Map(Bare, pieces);
      assert bare[1..] == Map(Bare, pieces[1..]);
      if p.Entry? {
        BareParses(p);
        BareEntriesParse(entries[p.identity := p.tenantId], pieces[1..]);
      } else {
        BareEntriesParse(entries, pieces[1..]);
      }
    }
  }

  lemma RenderedParts(pieces: seq<Piece>)
    requires pieces != [] && forall i :: 0 <= i < |pieces| ==> WellFormed(pieces[i])
    ensures Map(Trim, Split(Trim(Render(pieces)), ',')) == Map(Bare, pieces)
  {
    forall i | 0 <= i < |pieces|
      ensures ',' !in Map(Written, pieces)[i] && Trim(Map(Written, pieces)[i]) == Bare(pieces[i])
    {
      WrittenTrims(pieces[i]);
    }
    SplitJoin(Map(Written, pieces), ',');
    TrimWholeTrimParts(Render(pieces));
  }

  /** What the parser makes of a written list, by whether it has an entry. */
  lemma WrittenParses(pieces: seq<Piece>)
    requires pieces != [] && forall i :: 0 <= i < |pieces| ==> WellFormed(pieces[i])
    ensures ParseEntries(map[], Map(Trim, Split(Trim(Render(pieces)), ','))) == Ok(LastWins(map[], pieces))
  {
    RenderedParts(pieces);
    BareEntriesParse(map[], pieces);
  }

  lemma EntryShows(pieces: seq<Piece>, i: nat)
    requires forall j :: 0 <= j < |pieces| ==> WellFormed(pieces[j])
    requires i < |pieces| && pieces[i].Entry?
    ensures Trim(Render(pieces)) != "" && LastWins(map[], pieces) != map[]
  {
    var k := LastOf(pieces, i);
    LastWinsIsLast(map[], pieces, k);
    RenderedParts(pieces);
    BareParses(pieces[i]);
    assert Map(Bare, pieces)[i] != "";
    TrimmedEmpty();
  }

  lemma TrimmedEmpty()
    ensures Map(Trim, Split("", ',')) == [""]
  {
  }

  /**
   Parsing undoes printing, with any padding and empty entries: the outcome is the last-wins map,
   and a list without a single entry is refused.
   */
  lemma RoundTrip(pieces: seq<Piece>)
    requires forall i :: 0 <= i < |pieces| ==> WellFormed(pieces[i])
    ensures if exists i :: 0 <= i < |pieces| && pieces[i].Entry?
            then Parse(Some(Render(pieces))) == Ok(LastWins(map[], pieces))
            else Parse(Some(Render(pieces))).Err?
  {
    if pieces != [] {
      WrittenParses(pieces);
    }
    if i :| 0 <= i < |pieces| && pieces[i].Entry? {
      EntryShows(pieces, i);
    } else if pieces != [] {
      OnlyEmpty(pieces);
    }
  }

  lemma {:induction false} OnlyEmpty(pieces: seq<Piece>)
    requires forall i :: 0 <= i < |pieces| ==> pieces[i].Empty?
    ensures LastWins(map[], pieces) == map[]
  {
    if pieces == [] {
    } else {
      OnlyEmpty(pieces[1..]);
    }
  }

  /** The last entry with the identity of entry `i`. */
  lemma LastOf(pieces: seq<Piece>, i: nat) returns (k: nat)
    requires i < |pieces| && pieces[i].Entry?
    ensures i <= k < |pieces| && pieces[k].Entry? && pieces[k].identity == pieces[i].identity
    ensures forall j :: k < j < |pieces| && pieces[j].Entry? ==> pieces[j].identity != pieces[i].identity
    decreases |pieces| - i
  {
    if j :| i < j < |pieces| && pieces[j].Entry? && pieces[j].identity == pieces[i].identity {
      k := LastOf(pieces, j);
    } else {
      k := i;
    }
  }

  /** Whatever the value, an accepted list maps non-empty identities to positive tenants. */
  lemma {:induction false} ParsedIsWellFormed(entries: Registry, trimmed: seq<string>)
    requires forall id :: id in entries ==> id != "" && entries[id] > 0
    ensures ParseEntries(entries, trimmed).Ok? ==>
              forall id :: id in ParseEntries(entries, trimmed).value ==>
                id != "" && ParseEntries(entries, trimmed).value[id] > 0
    ensures ParseEntries(entries, trimmed).Ok? <==>
              forall i :: 0 <= i < |trimmed| && trimmed[i] != "" ==> ParseEntry(trimmed[i]).Ok?
    decreases |trimmed|
  {
    if trimmed == [] {
    } else {
      if trimmed[0] == "" {
        ParsedIsWellFormed(entries, trimmed[1..]);
      } else if ParseEntry(trimmed[0]).Ok? {
        var (identity, tenantId) := ParseEntry(trimmed[0]).value;
        ParsedIsWellFormed(entries[identity := tenantId], trimmed[1..]);
      }
      assert forall i :: 0 < i < |trimmed| ==> trimmed[1..][i - 1] == trimmed[i];
    }
  }

  // --- What is refused, and why --------------------------------------------------------------------

  predicate CutsAs(entry: string, identity: string, tail: string) {
    entry == identity + [':'] + tail && ':' !in tail
  }

  /** An entry is malformed if and only if its last colon, if any, has nothing on one of its sides. */
  lemma EntryFailsExactly(entry: string)
    ensures ParseEntry(entry) == Err(Malformed(entry)) <==>
              forall identity, tail :: CutsAs(entry, identity, tail) ==> identity == "" || tail == ""
    ensures ParseEntry(entry).Err? ==> ParseEntry(entry).error in {Malformed(entry), BadTenant(entry)}
  {
    var i := LastIndexOf(entry, ':');
    if i >= 0 {
      assert CutsAs(entry, entry[..i], entry[i + 1..]);
    }
    forall identity, tail | CutsAs(entry, identity, tail)
      ensures i == |identity| && |entry| == |identity| + 1 + |tail|
    {
      CutAtLastColon(identity, tail);
    }
  }

  /** Part `i` is the first that is not empty and does not parse. */
  predicate FirstBad(trimmed: seq<string>, i: nat) {
    && i < |trimmed| && trimmed[i] != "" && ParseEntry(trimmed[i]).Err?
    && forall j :: 0 <= j < i ==> trimmed[j] == "" || ParseEntry(trimmed[j]).Ok?
  }

  predicate AllEmpty(trimmed: seq<string>) {
    forall i :: 0 <= i < |trimmed| ==> trimmed[i] == ""
  }

  lemma {:induction false} FirstBadFails(entries: Registry, trimmed: seq<string>, i: nat)
    requires FirstBad(trimmed, i)
    ensures ParseEntries(entries, trimmed) == Err(ParseEntry(trimmed[i]).error)
    decreases |trimmed|
  {
    if i > 0 {
      assert forall j :: 0 < j < |trimmed| ==> trimmed[1..][j - 1] == trimmed[j];
      var pair := ParseEntry(trimmed[0]);
      FirstBadFails(if trimmed[0] == "" then entries else entries[pair.value.0 := pair.value.1], trimmed[1..], i - 1);
    }
  }

  lemma {:induction false} EmptyIfAllEmpty(entries: Registry, trimmed: seq<string>)
    requires ParseEntries(entries, trimmed).Ok?
    ensures ParseEntries(entries, trimmed).value == map[] <==> entries == map[] && AllEmpty(trimmed)
    decreases |trimmed|
  {
    if trimmed == [] {
    } else {
      assert AllEmpty(trimmed) <==> trimmed[0] == "" && AllEmpty(trimmed[1..]) by {
        assert forall j :: 0 < j < |trimmed| ==> trimmed[1..][j - 1] == trimmed[j];
      }
      if trimmed[0] == "" {
        EmptyIfAllEmpty(entries, trimmed[1..]);
      } else {
        var pair := ParseEntry(trimmed[0]).value;
        assert pair.0 in entries[pair.0 := pair.1];
        EmptyIfAllEmpty(entries[pair.0 := pair.1], trimmed[1..]);
      }
    }
  }

  lemma TrimsToNothing(s: string)
    ensures Trim(s) == "" <==> IsBlank(s)
  {
    var before := TrimStartSplits(s);
    var after := TrimEndSplits(TrimStart(s));
    assert Trim(s) == "" ==> s == before + after;
    if IsBlank(s) {
      assert s + "" + "" == s;
      TrimPadded(s, "", "");
    }
  }

  /**
   The value is missing if and only if it is unset or blank; otherwise the first entry that does not parse
   is the one reported, and a value without any entry, only commas and blanks, is reported as such.
   */
  lemma ParseFailsExactly(raw: Option<string>)
    ensures Parse(raw) == Err(Missing) <==> raw.None? || IsBlank(raw.value)
    ensures raw.Some? && !IsBlank(raw.value) ==>
      var trimmed := Map(Trim, Split(raw.value, ','));
      && (Parse(raw) == Err(NoEntries) <==> AllEmpty(trimmed))
      && (forall i: nat :: FirstBad(trimmed, i) ==> Parse(raw) == Err(ParseEntry(trimmed[i]).error))
  {
    if raw.Some? {
      TrimsToNothing(raw.value);
      TrimWholeTrimParts(raw.value);
      ParsedParts(Map(Trim, Split(raw.value, ',')));
    }
  }

  lemma ParsedParts(trimmed: seq<string>)
    ensures ParseEntries(map[], trimmed) == Ok(map[]) <==> AllEmpty(trimmed)
    ensures forall i: nat :: FirstBad(trimmed, i) ==> ParseEntries(map[], trimmed) == Err(ParseEntry(trimmed[i]).error)
    ensures ParseEntries(map[], trimmed).Err? ==> ParseEntries(map[], trimmed).error !in {Missing, NoEntries}
  {
    forall i: nat | FirstBad(trimmed, i)
      ensures ParseEntries(map[], trimmed) == Err(ParseEntry(trimmed[i]).error)
    {
      FirstBadFails(map[], trimmed, i);
    }
    ParsedIsWellFormed(map[], trimmed);
    if ParseEntries(map[], trimmed).Ok? {
      EmptyIfAllEmpty(map[], trimmed);
    } else {
      var i := FirstBadOf(trimmed);
      FirstBadFails(map[], trimmed, i);
      EntryFailsExactly(trimmed[i]);
    }
  }

  lemma {:induction false} FirstBadOf(trimmed: seq<string>) returns (i: nat)
    requires exists k :: 0 <= k < |trimmed| && trimmed[k] != "" && ParseEntry(trimmed[k]).Err?
    ensures FirstBad(trimmed, i)
  {
    i := 0;
    if trimmed[0] == "" || ParseEntry(trimmed[0]).Ok? {
      assert forall j :: 0 < j < |trimmed| ==> trimmed[1..][j - 1] == trimmed[j];
      i := FirstBadOf(trimmed[1..]);
      i := i + 1;
    }
  }

  // --- The certificate -----------------------------------------------------------------------------

  datatype Certificate = Certificate(subjectAltName: Option<string>, commonName: Option<string>)

  const DNS: string := "DNS:"

  predicate IsDns(trimmed: string) {
    DNS <= trimmed
  }

  function DnsNames(trimmed: seq<string>): seq<string> {
    if trimmed == [] then []
    else DnsNames(trimmed[..|trimmed| - 1]) +
         (if IsDns(trimmed[|trimmed| - 1]) then [trimmed[|trimmed| - 1][|DNS|..]] else [])
  }

  /** The names in a SAN text: it is cut at every comma. */
  function NamesIn(san: string): seq<string> {
    DnsNames(Map(Trim, Split(san, ',')))
  }

  /** Every DNS name; the common name stands in only when there is none, SAN or not. */
  function Candidates(cert: Certificate): seq<string> {
    var names := if cert.subjectAltName.None? then [] else NamesIn(cert.subjectAltName.value);
    if names == [] && cert.commonName.Some? && cert.commonName.value != "" then [cert.commonName.value] else names
  }

  lemma DnsNamesUpTo(trimmed: seq<string>, i: nat)
    requires i < |trimmed|
    ensures DnsNames(trimmed[..i + 1])
         == DnsNames(trimmed[..i]) + (if IsDns(trimmed[i]) then [trimmed[i][|DNS|..]] else [])
  {
    assert trimmed[..i + 1][..i] == trimmed[..i];
  }

  lemma EmptyHasNoNames()
    ensures NamesIn("") == []
  {
    var trimmed := Map(Trim, Split("", ','));
    assert trimmed == [""];
    DnsNamesUpTo(trimmed, 0);
    assert trimmed[..1] == trimmed;
  }

  method ExtractIdentityCandidates(cert: Certificate) returns (candidates: seq<string>)
    ensures candidates == Candidates(cert)
  {
    candidates := [];
    if cert.subjectAltName.Some? && cert.subjectAltName.value != "" {
      var raw := Split(cert.subjectAltName.value, ',');
      ghost var all := Map(Trim, raw);
      var i := 0;
      while i < |raw|
        invariant 0 <= i <= |raw|
        invariant candidates == DnsNames(all[..i])
      {
        DnsNamesUpTo(all, i);
        var trimmed := Trim(raw[i]);
        if IsDns(trimmed) {
          candidates := candidates + [trimmed[|DNS|..]];
        }
        i := i + 1;
      }
      assert all[..i] == all;
    } else if cert.subjectAltName.Some? {
      EmptyHasNoNames();
    }
    if candidates == [] && cert.commonName.Some? && cert.commonName.value != "" {
      candidates := [cert.commonName.value];
    }
  }

  /** A subject alternative name as it is printed: a DNS name or one of another kind. */
  datatype AltName = Dns(name: string) | OtherKind(text: string)

  function AltText(a: AltName): string {
    match a
    case Dns(name) => "DNS:" + name
    case OtherKind(text) => text
  }

  /** The entries' own texts, separated by a comma and a blank. */
  function SanText(names: seq<AltName>): string {
    if names == [] then ""
    else if |names| == 1 then AltText(names[0])
    else SanText(names[..|names| - 1]) + [','] + (" " + AltText(names[|names| - 1]))
  }

  /** The certified DNS names. */
  function OnlyDns(names: seq<AltName>): seq<string> {
    if names == [] then []
    else OnlyDns(names[..|names| - 1]) +
         (if names[|names| - 1].Dns? then [names[|names| - 1].name] else [])
  }

  /** The names that each entry's own text offers, one entry after the other. */
  function Offered(names: seq<AltName>): seq<string> {
    if names == [] then [] else Offered(names[..|names| - 1]) + NamesIn(AltText(names[|names| - 1]))
  }

  lemma {:induction false} DnsNamesConcat(a: seq<string>, b: seq<string>)
    ensures DnsNames(a + b) == DnsNames(a) + DnsNames(b)
  {
    if b == [] {
      assert a + b == a;
    } else {
      DnsNamesConcat(a, b[..|b| - 1]);
      assert (a + b)[..|a + b| - 1] == a + b[..|b| - 1];
    }
  }

  lemma DnsNamesOfBoth(partsA: seq<string>, partsB: seq<string>)
    ensures DnsNames(Map(Trim, partsA + partsB)) == DnsNames(Map(Trim, partsA)) + DnsNames(Map(Trim, partsB))
  {
    assert Map(Trim, partsA + partsB) == Map(Trim, partsA) + Map(Trim, partsB);
    DnsNamesConcat(Map(Trim, partsA), Map(Trim, partsB));
  }

  /** A comma inside an entry cuts like one between entries. */
  lemma NamesInJoined(a: string, b: string)
    ensures NamesIn(a + [','] + b) == NamesIn(a) + NamesIn(b)
  {
    SplitConcat(a, b, ',');
    DnsNamesOfBoth(Split(a, ','), Split(b, ','));
  }

  lemma NamesInIndented(a: string)
    ensures NamesIn(" " + a) == NamesIn(a)
  {
    SplitAfterBlanks(" ", a, ',');
    TrimFirstPart(" ", Split(a, ','));
  }

  lemma {:induction false} SanOffers(names: seq<AltName>)
    ensures NamesIn(SanText(names)) == Offered(names)
  {
    if names == [] {
      EmptyHasNoNames();
    } else if |names| == 1 {
      assert names[..0] == [];
      assert Offered(names[..0]) == [];
    } else {
      var n := |names| - 1;
      SanOffers(names[..n]);
      NamesInJoined(SanText(names[..n]), " " + AltText(names[n]));
      NamesInIndented(AltText(names[n]));
    }
  }

  // --- When an entry offers just what it certifies -------------------------------------------------

  function Certified(a: AltName): seq<string> {
    match a
    case Dns(name) => [name]
    case OtherKind(_) => []
  }

  /**
   A DNS name without a comma or a blank at its end, or an entry of another kind none of whose own
   comma-separated parts reads as a DNS entry.
   */
  predicate Honest(a: AltName) {
    match a
    case Dns(name) => ',' !in name && (name == "" || !IsSpace(name[|name| - 1]))
    case OtherKind(text) => forall j :: 0 <= j < |Split(text, ',')| ==> !("DNS:" <= Trim(Split(text, ',')[j]))
  }

  lemma {:induction false} NoDnsNames(trimmed: seq<string>)
    ensures DnsNames(trimmed) == [] <==> forall j :: 0 <= j < |trimmed| ==> !IsDns(trimmed[j])
  {
    if trimmed == [] {
    } else {
      NoDnsNames(trimmed[..|trimmed| - 1]);
    }
  }

  lemma OtherOffersExactly(text: string)
    ensures NamesIn(text) == [] <==> Honest(OtherKind(text))
  {
    NoDnsNames(Map(Trim, Split(text, ',')));
  }

  /** The first part of a text, and whether there are more. */
  lemma {:induction false} FirstPart(s: string, sep: char)
    ensures var parts := Split(s, sep);
      && |parts[0]| <= |s|
      && (sep !in s ==> parts == [s])
      && (sep in s ==> |parts[0]| < |s|)
  {
    if s == "" {
    } else {
      FirstPart(s[1..], sep);
      assert s == [s[0]] + s[1..];
    }
  }

  lemma TrimDns(first: string)
    ensures Trim(DNS + first) == DNS + TrimEnd(first)
  {
    assert (DNS + first)[0] == 'D' && !IsSpace('D');
    assert TrimStart(DNS + first) == DNS + first;
    TrimEndKeeps(DNS, first);
  }

  lemma OneDnsName(t: string)
    ensures DnsNames([DNS + t]) == [t]
  {
    assert [DNS + t][..0] == [];
    assert (DNS + t)[|DNS|..] == t;
  }

  lemma MapTrimFirst(first: string, rest: seq<string>)
    ensures Map(Trim, [first] + rest) == [Trim(first)] + Map(Trim, rest)
  {
  }

  lemma FirstName(name: string)
    ensures var parts := Split(name, ',');
      NamesIn(DNS + name) == [TrimEnd(parts[0])] + DnsNames(Map(Trim, parts[1..]))
  {
    var parts := Split(name, ',');
    SplitAfterBlanks(DNS, name, ',');
    TrimDns(parts[0]);
    MapTrimFirst(DNS + parts[0], parts[1..]);
    DnsNamesConcat([DNS + TrimEnd(parts[0])], Map(Trim, parts[1..]));
    OneDnsName(TrimEnd(parts[0]));
  }

  lemma DnsOffersExactly(name: string)
    ensures NamesIn(DNS + name) == [name] <==> Honest(Dns(name))
    ensures |NamesIn(DNS + name)| >= 1
  {
    var parts := Split(name, ',');
    FirstName(name);
    FirstPart(name, ',');
    TrimEndShortens(parts[0]);
    if ',' !in name {
      assert Map(Trim, parts[1..]) == [];
    } else {
      assert NamesIn(DNS + name)[0] == TrimEnd(parts[0]);
    }
  }

  lemma OffersExactly(a: AltName)
    ensures NamesIn(AltText(a)) == Certified(a) <==> Honest(a)
    ensures |NamesIn(AltText(a))| >= |Certified(a)|
  {
    match a
    case Dns(name) => DnsOffersExactly(name);
    case OtherKind(text) => OtherOffersExactly(text);
  }

  lemma SameLengthSameParts<T>(a: seq<T>, b: seq<T>, a': seq<T>, b': seq<T>)
    requires |a| >= |a'| && |b| >= |b'|
    ensures a + b == a' + b' <==> a == a' && b == b'
  {
    if a + b == a' + b' {
      assert |a| == |a'|;
      assert a == (a + b)[..|a|] && a' == (a' + b')[..|a|];
      assert b == (a + b)[|a|..] && b' == (a' + b')[|a|..];
    }
  }

  predicate AllHonest(names: seq<AltName>) {
    forall i :: 0 <= i < |names| ==> Honest(names[i])
  }

  lemma AllHonestButLast(names: seq<AltName>)
    requires names != []
    ensures AllHonest(names) <==> AllHonest(names[..|names| - 1]) && Honest(names[|names| - 1])
  {
    var n := |names| - 1;
    assert forall i :: 0 <= i < n ==> names[..n][i] == names[i];
  }

  lemma {:induction false} AllOfferExactly(names: seq<AltName>)
    ensures Offered(names) == OnlyDns(names) <==> AllHonest(names)
    ensures |Offered(names)| >= |OnlyDns(names)|
  {
    if names == [] {
    } else {
      var front, last := names[..|names| - 1], names[|names| - 1];
      AllOfferExactly(front);
      AllHonestButLast(names);
      OffersExactly(last);
      SameLengthSameParts(Offered(front), NamesIn(AltText(last)), OnlyDns(front), Certified(last));
    }
  }

  function OrCommonName(names: seq<string>, commonName: Option<string>): seq<string> {
    if names == [] && commonName.Some? && commonName.value != "" then [commonName.value] else names
  }

  /**
   Without a subject alternative name the candidate is the common name, if there is one.
   From any printed subject alternative name the candidates are what the entries' own texts offer, in
   order, or the common name, if there is one, when these offer nothing. What is offered is exactly the
   certified DNS names if and only if every entry is honest.
   */
  lemma SanRoundTrip(names: seq<AltName>, commonName: Option<string>)
    ensures Candidates(Certificate(None, commonName)) == OrCommonName([], commonName)
    ensures Candidates(Certificate(Some(SanText(names)), commonName)) == OrCommonName(Offered(names), commonName)
    ensures Offered(names) == OnlyDns(names) <==> AllHonest(names)
  {
    SanOffers(names);
    AllOfferExactly(names);
  }

  /** An entry of another kind with a comma in it, say an address of a page, offers a name nobody certified. */
  lemma CommaOffersName(before: string, name: string, commonName: Option<string>)
    requires ',' !in name && (name == "" || !IsSpace(name[|name| - 1]))
    ensures var names := [OtherKind(before + [','] + (" " + ("DNS:" + name)))];
      && OnlyDns(names) == [] && !Honest(names[0])
      && Candidates(Certificate(Some(SanText(names)), commonName)) == NamesIn(before) + [name]
  {
    var text := before + [','] + (" " + (DNS + name));
    var names := [OtherKind(text)];
    NamesInJoined(before, " " + (DNS + name));
    NamesInIndented(DNS + name);
    DnsOffersExactly(name);
    OtherOffersExactly(text);
    assert OnlyDns(names) == [] by {
      assert names[..0] == [];
    }
  }

  lemma TrimKeepsFirst(text: string)
    requires text != "" && !IsSpace(text[0]) && text[0] != 'D'
    ensures !IsDns(Trim(text))
  {
    assert TrimStart(text) == text;
    var w := TrimEndSplits(text);
    assert Trim(text) != "" ==> Trim(text)[0] == text[0];
  }

  /** A certificate whose SAN has only an IP address is taken by its common name. */
  lemma AddressOnlyFallsBack(address: string, commonName: string)
    requires ',' !in address && commonName != ""
    ensures Candidates(Certificate(Some("IP Address:" + address), Some(commonName))) == [commonName]
  {
    var text := "IP Address:" + address;
    SplitUnseparated(text, ',');
    TrimKeepsFirst(text);
    OtherOffersExactly(text);
  }

  // --- The guard -----------------------------------------------------------------------------------

  datatype AuthContext = AuthContext(cert: Option<Certificate>, ssl: bool)

  datatype Verdict = Admitted(tenantId: int) | Unauthenticated | PermissionDenied

  function FirstListed(registry: Registry, candidates: seq<string>): Option<int> {
    if candidates == [] then None
    else if candidates[0] in registry then Some(registry[candidates[0]])
    else FirstListed(registry, candidates[1..])
  }

  function Judge(registry: Registry, auth: Option<AuthContext>): Verdict {
    if auth.None? || auth.value.cert.None? || !auth.value.ssl then Unauthenticated
    else
      match FirstListed(registry, Candidates(auth.value.cert.value))
      case Some(tenantId) => Admitted(tenantId)
      case None => PermissionDenied
  }

  lemma {:induction false} FirstListedIsFirst(registry: Registry, candidates: seq<string>)
    ensures FirstListed(registry, candidates).Some? <==> exists k :: 0 <= k < |candidates| && candidates[k] in registry
    ensures forall k ::
              0 <= k < |candidates| && candidates[k] in registry
              && (forall j :: 0 <= j < k ==> candidates[j] !in registry)
              ==> FirstListed(registry, candidates) == Some(registry[candidates[k]])
  {
    if candidates != [] && candidates[0] !in registry {
      FirstListedIsFirst(registry, candidates[1..]);
      forall k | 0 <= k < |candidates| && candidates[k] in registry
        ensures k > 0 && candidates[1..][k - 1] in registry
      {
      }
      assert forall j :: 0 <= j < |candidates| - 1 ==> candidates[1..][j] == candidates[j + 1];
    }
  }

  /** Candidate `k` is the first one in the list. */
  predicate IsFirstListed(registry: Registry, candidates: seq<string>, k: nat) {
    k < |candidates| && candidates[k] in registry && forall j :: 0 <= j < k ==> candidates[j] !in registry
  }

  /**
   A call without a certificate, or not over TLS, is unauthenticated; one none of whose candidates is in
   the list is denied; any other is admitted for the tenant of its first listed candidate.
   */
  lemma JudgedExactly(registry: Registry, auth: Option<AuthContext>)
    ensures Judge(registry, auth) == Unauthenticated <==>
              auth == None || auth.value.cert == None || !auth.value.ssl
    ensures auth.Some? && auth.value.cert.Some? && auth.value.ssl ==>
      var candidates := Candidates(auth.value.cert.value);
      && (Judge(registry, auth) == PermissionDenied <==>
            forall k :: 0 <= k < |candidates| ==> candidates[k] !in registry)
      && forall k: nat :: IsFirstListed(registry, candidates, k) ==>
           Judge(registry, auth) == Admitted(registry[candidates[k]])
  {
    if auth.Some? && auth.value.cert.Some? {
      FirstListedIsFirst(registry, Candidates(auth.value.cert.value));
    }
  }

  class ServiceIdentityRegistry {
    const entries: Registry

    constructor (entries: Registry)
      ensures this.entries == entries
    {
      this.entries := entries;
    }

    method ResolveTenantId(candidates: seq<string>) returns (tenantId: Option<int>)
      ensures tenantId == FirstListed(entries, candidates)
    {
      var i := 0;
      while i < |candidates|
        invariant 0 <= i <= |candidates|
        invariant FirstListed(entries, candidates) == FirstListed(entries, candidates[i..])
      {
        if candidates[i] in entries {
          return Some(entries[candidates[i]]);
        }
        assert candidates[i..][1..] == candidates[i + 1..];
        i := i + 1;
      }
      tenantId := None;
    }
  }

  /** Resolved tenants by call; a call is one object, here a number. */
  class ResolvedIdentityContext {
    var tenantIdByCall: map<nat, int>

    constructor ()
      ensures tenantIdByCall == map[]
    {
      tenantIdByCall := map[];
    }

    method Set(call: nat, tenantId: int)
      modifies this
      ensures tenantIdByCall == old(tenantIdByCall)[call := tenantId]
    {
      tenantIdByCall := tenantIdByCall[call := tenantId];
    }

    function Get(call: nat): Option<int>
      reads this
    {
      if call in tenantIdByCall then Some(tenantIdByCall[call]) else None
    }
  }

  class MtlsGuard {
    const registry: ServiceIdentityRegistry
    const context: ResolvedIdentityContext

    constructor (registry: ServiceIdentityRegistry, context: ResolvedIdentityContext)
      ensures this.registry == registry && this.context == context
    {
      this.registry := registry;
      this.context := context;
    }

    method CanActivate(call: nat, auth: Option<AuthContext>) returns (verdict: Verdict)
      modifies context
      ensures verdict == Judge(registry.entries, auth)
      ensures context.tenantIdByCall
           == Recorded(registry.entries, old(context.tenantIdByCall), Guarded(call, auth))
      ensures context.Get(call) == if verdict.Admitted? then Some(verdict.tenantId) else old(context.Get(call))
    {
      if auth.None? {
        return Unauthenticated;
      }
      if auth.value.cert.None? || !auth.value.ssl {
        return Unauthenticated;
      }
      var candidates := ExtractIdentityCandidates(auth.value.cert.value);
      if |candidates| == 0 {
        return PermissionDenied;
      }
      var tenantId := registry.ResolveTenantId(candidates);
      if tenantId.None? {
        return PermissionDenied;
      }
      context.Set(call, tenantId.value);
      verdict := Admitted(tenantId.value);
    }
  }

  // --- Concurrent calls ----------------------------------------------------------------------------

  /** The guard ran for a call. */
  datatype Guarded = Guarded(call: nat, auth: Option<AuthContext>)

  function Recorded(registry: Registry, tenants: map<nat, int>, g: Guarded): map<nat, int> {
    match Judge(registry, g.auth)
    case Admitted(tenantId) => tenants[g.call := tenantId]
    case _ => tenants
  }

  function RecordedAll(registry: Registry, runs: seq<Guarded>): map<nat, int> {
    if runs == [] then map[]
    else Recorded(registry, RecordedAll(registry, runs[..|runs| - 1]), runs[|runs| - 1])
  }

  lemma {:induction false} NeverGuarded(registry: Registry, runs: seq<Guarded>, call: nat)
    requires forall j :: 0 <= j < |runs| ==> runs[j].call != call
    ensures call !in RecordedAll(registry, runs)
  {
    if runs == [] {
    } else {
      NeverGuarded(registry, runs[..|runs| - 1], call);
    }
  }

  /**
   Whatever runs in between or besides, a guarded call finds its own tenant exactly when the guard
   admitted it.
   */
  lemma {:induction false} OwnTenant(registry: Registry, runs: seq<Guarded>, k: nat)
    requires k < |runs|
    requires forall j :: 0 <= j < |runs| && j != k ==> runs[j].call != runs[k].call
    ensures var tenants, verdict := RecordedAll(registry, runs), Judge(registry, runs[k].auth);
      && (runs[k].call in tenants <==> verdict.Admitted?)
      && (verdict.Admitted? ==> tenants[runs[k].call] == verdict.tenantId)
  {
    if k == |runs| - 1 {
      NeverGuarded(registry, runs[..k], runs[k].call);
    } else {
      OwnTenant(registry, runs[..|runs| - 1], k);
    }
  }

  /**
   From the written list to the recorded tenant: under any interleaving a call with a certificate
   is admitted exactly when one of its candidates is in the list, and what is recorded for it is the
   tenant of the last entry of its first listed candidate.
   */
  lemma ListedCallsOnly(pieces: seq<Piece>, runs: seq<Guarded>, k: nat, cert: Certificate)
    requires forall i :: 0 <= i < |pieces| ==> WellFormed(pieces[i])
    requires exists i :: 0 <= i < |pieces| && pieces[i].Entry?
    requires k < |runs| && runs[k].auth == Some(AuthContext(Some(cert), true))
    requires forall j :: 0 <= j < |runs| && j != k ==> runs[j].call != runs[k].call
    ensures Parse(Some(Render(pieces))) == Ok(LastWins(map[], pieces))
    ensures var tenants := RecordedAll(LastWins(map[], pieces), runs);
      && (runs[k].call in tenants <==> exists c :: c in Candidates(cert) && InList(pieces, c))
      && (runs[k].call in tenants ==>
            exists i: nat, c: nat ::
              && FirstInList(pieces, Candidates(cert), i, c)
              && tenants[runs[k].call] == pieces[i].tenantId)
  {
    RoundTrip(pieces);
    var registry, candidates := LastWins(map[], pieces), Candidates(cert);
    OwnTenant(registry, runs, k);
    FirstListedIsFirst(registry, candidates);
    forall c
      ensures c in registry <==> InList(pieces, c)
    {
      ListedIsInMap(pieces, c);
    }
    if runs[k].call in RecordedAll(registry, runs) {
      var c := FirstMember(registry, candidates);
      assert InList(pieces, candidates[c]);
      var any :| 0 <= any < |pieces| && pieces[any].Entry? && pieces[any].identity == candidates[c];
      var i := LastOf(pieces, any);
      LastWinsIsLast(map[], pieces, i);
      assert FirstInList(pieces, candidates, i, c);
    }
  }

  ghost predicate InList(pieces: seq<Piece>, identity: string) {
    exists i :: 0 <= i < |pieces| && pieces[i].Entry? && pieces[i].identity == identity
  }

  /** Candidate `c` is the first listed one, and piece `i` its last entry. */
  ghost predicate FirstInList(pieces: seq<Piece>, candidates: seq<string>, i: nat, c: nat) {
    && c < |candidates| && i < |pieces| && pieces[i].Entry? && pieces[i].identity == candidates[c]
    && (forall j :: 0 <= j < c ==> !InList(pieces, candidates[j]))
    && (forall j :: i < j < |pieces| && pieces[j].Entry? ==> pieces[j].identity != candidates[c])
  }

  lemma FirstMember(registry: Registry, candidates: seq<string>) returns (c: nat)
    requires FirstListed(registry, candidates).Some?
    ensures c < |candidates| && candidates[c] in registry
    ensures forall j :: 0 <= j < c ==> candidates[j] !in registry
  {
    if candidates[0] in registry {
      c := 0;
    } else {
      c := FirstMember(registry, candidates[1..]);
      c := c + 1;
    }
  }

  lemma ListedIsInMap(pieces: seq<Piece>, identity: string)
    ensures identity in LastWins(map[], pieces) <==> InList(pieces, identity)
  {
    if InList(pieces, identity) {
      var i :| 0 <= i < |pieces| && pieces[i].Entry? && pieces[i].identity == identity;
      var k := LastOf(pieces, i);
      LastWinsIsLast(map[], pieces, k);
    } else {
      LastWinsKeeps(map[], pieces, identity);
    }
  }
}
