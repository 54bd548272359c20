/** The KMZ label recognizer: doctrinal prefixes, target designators, words and routes, and the affiliation
    written into the symbol code. Labels are ASCII. */
module Recognizer {
  import opened Seqs
  import opened Text

  // --- Characters ---

  function Upper(c: char): char {
    if 'a' <= c <= 'z' then (c as int - 32) as char else c
  }

  function UpperAll(s: string): (u: string)
    ensures |u| == |s| && forall i | 0 <= i < |s| :: u[i] == Upper(s[i])
  {
    if s == "" then "" else [Upper(s[0])] + UpperAll(s[1..])
  }

  predicate IsLetter(c: char) {
    'A' <= c <= 'Z'
  }

  predicate IsDigit(c: char) {
    '0' <= c <= '9'
  }

  /** \w */
  predicate IsWord(c: char) {
    IsLetter(Upper(c)) || IsDigit(c) || c == '_'
  }

  function Run(s: string, p: char -> bool): (n: nat)
    ensures n <= |s|
    ensures forall i | 0 <= i < n :: p(s[i])
    ensures n < |s| ==> !p(s[n])
  {
    if s != "" && p(s[0]) then 1 + Run(s[1..], p) else 0
  }

  /** The text starts with p, in any case. */
  predicate StartsWith(p: string, s: string) {
    |p| <= |s| && UpperAll(s[..|p|]) == p
  }

  /** \b behind the first n characters, the last of which is a word character */
  predicate BoundaryAt(s: string, n: nat) {
    n <= |s| && (n == |s| || !IsWord(s[n]))
  }

  // --- Patterns ---

  /** A case-insensitive prefix followed by the end or by whitespace and more; or the boundary pattern, an alternation
      whose word boundary belongs to its second branch only. */
  datatype Pattern = Prefix(word: string) | BndryOrBoundary

  predicate Matches(p: Pattern, s: string) {
    match p
    case Prefix(word) =>
      && StartsWith(word, s)
      && var tail := s[|word|..];
         var spaces := Run(tail, IsSpace);
         tail == "" || tail == "\n" || (spaces > 0 && spaces < |tail|)
    case BndryOrBoundary =>
      StartsWith("BNDRY", s) || (StartsWith("BOUNDARY", s) && BoundaryAt(s, 8))
  }

  datatype Status = Clean | BestEffort

  datatype Entry = Entry(pattern: Pattern, functionCode: string, kind: string, status: Status)

  const MANEUVER: seq<Entry> := [
    Entry(Prefix("PL"), "GLP", "phase_line", BestEffort),
    Entry(Prefix("LDLC"), "GLF", "ld_lc", Clean),
    Entry(Prefix("LD"), "GLL", "line_of_departure", Clean),
    Entry(Prefix("LOA"), "OLAA", "limit_of_advance", Clean),
    Entry(Prefix("FEBA"), "OLF", "feba", Clean),
    Entry(Prefix("FLOT"), "OLT", "flot", Clean),
    Entry(BndryOrBoundary, "GLB", "boundary", BestEffort)]

  const AREAS: seq<Entry> := [
    Entry(Prefix("AO"), "GAG", "area_of_operations", Clean),
    Entry(Prefix("EA"), "OAE", "engagement_area", Clean),
    Entry(Prefix("AA"), "GAA", "assembly_area", Clean),
    Entry(Prefix("BP"), "DAB", "battle_position", Clean),
    Entry(Prefix("HA"), "OAH", "holding_area", Clean),
    Entry(Prefix("SBF"), "OAS", "support_by_fire", Clean),
    Entry(Prefix("ATK"), "OAK", "attack_position", Clean)]

  const MOBILITY: seq<Entry> := [
    Entry(Prefix("SP"), "OPP", "start_point", Clean),
    Entry(Prefix("RP"), "OPR", "release_point", Clean),
    Entry(Prefix("MSR"), "OLLS", "main_supply_route", Clean),
    Entry(Prefix("ASR"), "OLLA", "alt_supply_route", Clean)]

  const SERVICE_SUPPORT: seq<Entry> := [
    Entry(Prefix("CCP"), "OPCC", "casualty_collection_point", Clean),
    Entry(Prefix("CP"), "OPC", "contact_point", Clean)]

  const TARGETING: seq<Entry> := [
    Entry(Prefix("OBJ"), "OAO", "objective", Clean),
    Entry(Prefix("TAI"), "GPRI", "target_area_of_interest", Clean),
    Entry(Prefix("NAI"), "GPRN", "named_area_of_interest", Clean),
    Entry(Prefix("TRP"), "DPT", "target_reference_point", Clean)]

  const FIRE_SUPPORT: seq<Entry> := [
    Entry(Prefix("FSCL"), "LF", "fscl", Clean),
    Entry(Prefix("CFL"), "LC", "cfl", Clean),
    Entry(Prefix("RFL"), "LR", "rfl", Clean),
    Entry(Prefix("NFL"), "LN", "nfl", Clean),
    Entry(Prefix("NFA"), "AN", "no_fire_area", Clean),
    Entry(Prefix("RFA"), "AR", "restrictive_fire_area", Clean)]

  const AVIATION: seq<Entry> := [
    Entry(Prefix("ROZ"), "ARZ", "roz", Clean),
    Entry(Prefix("PZ"), "PPZ", "pickup_zone", Clean),
    Entry(Prefix("LZ"), "PPL", "landing_zone", Clean),
    Entry(Prefix("DZ"), "PPD", "drop_zone", Clean)]

  const PREFIX_TABLE: seq<Entry> :=
    MANEUVER + AREAS + MOBILITY + SERVICE_SUPPORT + TARGETING + FIRE_SUPPORT + AVIATION

  /** ^[A-Z]{1,2}\d{3,4}\b */
  predicate IsTargetDesignator(s: string) {
    var letters := Run(s, IsLetter);
    var digits := Run(s[letters..], IsDigit);
    1 <= letters <= 2 && 3 <= digits <= 4 && BoundaryAt(s, letters + digits)
  }

  /** ^(route|axis)\b */
  predicate IsRoute(s: string) {
    (StartsWith("ROUTE", s) && BoundaryAt(s, 5)) || (StartsWith("AXIS", s) && BoundaryAt(s, 4))
  }

  datatype WordEntry = WordEntry(word: string, functionCode: string, kind: string)

  /** Upper-case here, since case does not matter to the comparison. */
  const WORD_TABLE: seq<WordEntry> := [
    WordEntry("CHECKPOINT", "OPCK", "checkpoint"),
    WordEntry("CONTROL POINT", "OPC", "control_point"),
    WordEntry("BRIDGE", "EBB", "bridge"),
    WordEntry("OBJECTIVE", "OAO", "objective")]

  predicate FoundAt(s: string, word: string, i: nat) {
    i + |word| <= |s| && s[i..i + |word|] == word
  }

  predicate Contains(s: string, word: string) {
    exists i | 0 <= i <= |s| :: FoundAt(s, word, i)
  }

  // --- Affiliation ---

  datatype Affiliation = Friend | Hostile | Neutral | Unknown | Suspect | AssumedFriend | Pending

  datatype Source = DescriptionHostile | DescriptionFriendly | SuspectedModifier | ConfiguredDefault

  function AffilChar(a: Affiliation): char {
    match a
    case Friend => 'F'
    case Hostile => 'H'
    case Neutral => 'N'
    case Unknown => 'U'
    case Suspect => 'S'
    case AssumedFriend => 'A'
    case Pending => 'P'
  }

  const AFFILIATIONS := [Friend, Hostile, Neutral, Unknown, Suspect, AssumedFriend, Pending]

  /** _affil_from_sidc: the first name whose character stands at position 2. */
  function AffilFromSidc(sidc: string): Affiliation
    requires |sidc| >= 2
  {
    AffilOfChar(sidc[1], AFFILIATIONS)
  }

  function AffilOfChar(c: char, names: seq<Affiliation>): Affiliation {
    if names == [] then Unknown else if AffilChar(names[0]) == c then names[0] else AffilOfChar(c, names[1..])
  }

  // --- What the description says ---

  /** Words separated by whitespace, each of capitals here since case does not matter. */
  type Phrase = seq<string>

  const HOSTILE_PHRASES: seq<Phrase> := [["ENEMY"], ["HOSTILE"], ["OPFOR"], ["THREAT"], ["RED", "FORCE"]]

  const FRIENDLY_PHRASES: seq<Phrase> := [["FRIENDLY"], ["BLUFOR"], ["BLUE", "FORCE"], ["OWN"], ["OWN", "FORCE"]]

  /** Where the phrase ends if it starts at i. */
  function PhraseEnd(s: string, i: nat, phrase: Phrase): Option<nat>
    requires i <= |s|
    decreases |phrase|
  {
    if phrase == [] || !StartsWith(phrase[0], s[i..]) then None
    else
      var end := i + |phrase[0]|;
      if |phrase| == 1 then Some(end)
      else
        var spaces := Run(s[end..], IsSpace);
        if spaces == 0 then None else PhraseEnd(s, end + spaces, phrase[1..])
  }

  /** The phrase stands at i, between word boundaries. */
  predicate PhraseAt(s: string, i: nat, phrase: Phrase) {
    && i <= |s| && (i > 0 ==> !IsWord(s[i - 1]))
    && PhraseEnd(s, i, phrase).Some? && BoundaryAt(s, PhraseEnd(s, i, phrase).value)
  }

  predicate Mentions(s: string, phrases: seq<Phrase>) {
    exists i, j | 0 <= i <= |s| && 0 <= j < |phrases| :: PhraseAt(s, i, phrases[j])
  }

  /** What the recognizer takes from outside a label: the description, and the configured default. */
  datatype Context = Context(description: Option<string>, default: Affiliation)

  predicate SaysHostile(ctx: Context) {
    ctx.description.Some? && Mentions(ctx.description.value, HOSTILE_PHRASES)
  }

  predicate SaysFriendly(ctx: Context) {
    ctx.description.Some? && Mentions(ctx.description.value, FRIENDLY_PHRASES)
  }

  function Choose(ctx: Context, suspected: bool): (Affiliation, Source) {
    var (base, source) :=
      if SaysHostile(ctx) then (Hostile, DescriptionHostile)
      else if SaysFriendly(ctx) then (Friend, DescriptionFriendly)
      else (ctx.default, ConfiguredDefault);
    if suspected then (if base == Friend then AssumedFriend else Suspect, SuspectedModifier) else (base, source)
  }

  /** _apply_affiliation, which raises for a template that is not 15 characters long. */
  function ApplyAffiliation(sidc: string, ctx: Context, suspected: bool): (r: Option<(string, Source)>)
    ensures r.Some? ==> |r.value.0| == 15
  {
    if |sidc| != 15 then None
    else
      var (affil, source) := Choose(ctx, suspected);
      Some(([sidc[0]] + [AffilChar(affil)] + sidc[2..], source))
  }

  function Dashes(n: nat): (s: string)
    ensures |s| == n
  {
    if n == 0 then "" else "-" + Dashes(n - 1)
  }

  /** _g: the template of a function code, None where it raises. */
  function Template(functionCode: string): Option<string> {
    if |functionCode| > 6 then None else Some("GUGP" + functionCode + Dashes(6 - |functionCode|) + "-----")
  }

  // --- The pipeline ---

  datatype Layer = PrefixLayer | TargetLayer | WordLayer | RouteLayer | GeometryFallback

  datatype Shape = PointShape | LineShape | PolygonShape

  function FallbackCode(shape: Shape): string {
    match shape
    case PointShape => "GPP"
    case LineShape => "GLG"
    case PolygonShape => "GAG"
  }

  /** What a label is found to mean, before the affiliation is written. */
  datatype Meaning = Meaning(functionCode: string, kind: Option<string>, status: Status, layer: Layer)

  function FirstMatch(table: seq<Entry>, s: string): Option<Entry> {
    if table == [] then None
    else if Matches(table[0].pattern, s) then Some(table[0])
    else FirstMatch(table[1..], s)
  }

  function FirstWord(table: seq<WordEntry>, upper: string): Option<WordEntry> {
    if table == [] then None
    else if Contains(upper, table[0].word) then Some(table[0])
    else FirstWord(table[1..], upper)
  }

  /** The label without surrounding whitespace and without a leading "suspected". */
  function WorkingLabel(name: Option<string>): (string, bool) {
    var s := if name.Some? then Strip(name.value) else "";
    if StartsWith("SUSPECTED", s) && Run(s[9..], IsSpace) > 0 then (Strip(s[9 + Run(s[9..], IsSpace)..]), true)
    else (s, false)
  }

  function Understand(table: seq<Entry>, s: string, shape: Shape): Meaning {
    var fallback := Meaning(FallbackCode(shape), None, BestEffort, GeometryFallback);
    if s == "" then fallback
    else
      match FirstMatch(table, s)
      case Some(e) => Meaning(e.functionCode, Some(e.kind), e.status, PrefixLayer)
      case None =>
        if IsTargetDesignator(s) then Meaning("DPT", Some("target_reference_point"), Clean, TargetLayer)
        else
          match FirstWord(WORD_TABLE, UpperAll(s))
          case Some(w) => Meaning(w.functionCode, Some(w.kind), BestEffort, WordLayer)
          case None =>
            if IsRoute(s) then Meaning("OLR", Some("route"), BestEffort, RouteLayer) else fallback
  }

  datatype Result = Result(sidc: string, affiliation: Affiliation, source: Source, suspected: bool, meaning: Meaning)

  /** recognize, as a function; None where a template would be refused. */
  function RecognizeWith(table: seq<Entry>, name: Option<string>, shape: Shape, ctx: Context): Option<Result> {
    var (s, suspected) := WorkingLabel(name);
    var meaning := Understand(table, s, shape);
    match Template(meaning.functionCode)
    case None => None
    case Some(template) =>
      match ApplyAffiliation(template, ctx, suspected)
      case None => None
      case Some((sidc, source)) => Some(Result(sidc, AffilFromSidc(sidc), source, suspected, meaning))
  }

  method ScanPrefixes(table: seq<Entry>, s: string) returns (r: Option<Entry>)
    ensures r == FirstMatch(table, s)
  {
    hide Matches;
    for i := 0 to |table|
      invariant FirstMatch(table, s) == FirstMatch(table[i..], s)
    {
      assert table[i..][1..] == table[i + 1..];
      if Matches(table[i].pattern, s) {
        return Some(table[i]);
      }
    }
    return None;
  }

  method ScanWords(table: seq<WordEntry>, upper: string) returns (r: Option<WordEntry>)
    ensures r == FirstWord(table, upper)
  {
    hide Contains;
    for i := 0 to |table|
      invariant FirstWord(table, upper) == FirstWord(table[i..], upper)
    {
      assert table[i..][1..] == table[i + 1..];
      if Contains(upper, table[i].word) {
        return Some(table[i]);
      }
    }
    return None;
  }

  /** recognize: the layers in turn, each overriding the geometry's own meaning. */
  method Recognize(name: Option<string>, shape: Shape, ctx: Context) returns (r: Option<Result>)
    ensures r == RecognizeWith(PREFIX_TABLE, name, shape, ctx)
  {
    hide FirstMatch, FirstWord, IsTargetDesignator, IsRoute, ApplyAffiliation, AffilFromSidc, Template, WorkingLabel;
    var (s, suspected) := WorkingLabel(name);
    var meaning := Meaning(FallbackCode(shape), None, BestEffort, GeometryFallback);
    if s != "" {
      var entry := ScanPrefixes(PREFIX_TABLE, s);
      if entry.Some? {
        meaning := Meaning(entry.value.functionCode, Some(entry.value.kind), entry.value.status, PrefixLayer);
      } else if IsTargetDesignator(s) {
        meaning := Meaning("DPT", Some("target_reference_point"), Clean, TargetLayer);
      } else {
        var word := ScanWords(WORD_TABLE, UpperAll(s));
        if word.Some? {
          meaning := Meaning(word.value.functionCode, Some(word.value.kind), BestEffort, WordLayer);
        } else if IsRoute(s) {
          meaning := Meaning("OLR", Some("route"), BestEffort, RouteLayer);
        }
      }
    }
    var template := Template(meaning.functionCode);
    if template.None? {
      return None;
    }
    var applied := ApplyAffiliation(template.value, ctx, suspected);
    if applied.None? {
      return None;
    }
    var (sidc, source) := applied.value;
    return Some(Result(sidc, AffilFromSidc(sidc), source, suspected, meaning));
  }

  // --- A prefix entry is about the first word ---

  predicate NotSpace(c: char) {
    !IsSpace(c)
  }

  /** The text up to its first whitespace, in capitals. */
  function FirstToken(s: string): string {
    UpperAll(s[..Run(s, NotSpace)])
  }

  predicate IsCapitalWord(w: string) {
    w != "" && forall i | 0 <= i < |w| :: IsLetter(w[i])
  }

  predicate IsStripped(s: string) {
    s != "" && !IsSpace(s[|s| - 1])
  }

  lemma {:induction false} RunAtLeast(s: string, p: char -> bool, n: nat)
    requires n <= |s| && forall i | 0 <= i < n :: p(s[i])
    ensures n <= Run(s, p)
    ensures n < |s| && !p(s[n]) ==> Run(s, p) == n
  {
    if n > 0 {
      RunAtLeast(s[1..], p, n - 1);
    }
  }

  lemma {:induction false} StartsWithLetters(w: string, s: string)
    requires IsCapitalWord(w) && StartsWith(w, s)
    ensures forall i | 0 <= i < |w| :: NotSpace(s[i])
    ensures |w| <= Run(s, NotSpace) && w <= FirstToken(s)
  {
    forall i | 0 <= i < |w| ensures NotSpace(s[i]) {
      assert UpperAll(s[..|w|])[i] == Upper(s[i]) == w[i] && IsLetter(w[i]);
    }
    RunAtLeast(s, NotSpace, |w|);
    forall i | 0 <= i < |w| ensures w[i] == FirstToken(s)[i] {
      assert UpperAll(s[..|w|])[i] == Upper(s[i]);
      assert s[..Run(s, NotSpace)][i] == s[i];
    }
  }

  /** A prefix pattern asks exactly that the first word of the label be the prefix. */
  lemma {:induction false} PrefixIsFirstToken(w: string, s: string)
    requires IsCapitalWord(w) && IsStripped(s)
    ensures Matches(Prefix(w), s) <==> FirstToken(s) == w
  {
    var n := Run(s, NotSpace);
    if Matches(Prefix(w), s) {
      StartsWithLetters(w, s);
      var tail := s[|w|..];
      assert tail != "" ==> tail[0] == s[|w|] && IsSpace(tail[0]);
      RunAtLeast(s, NotSpace, |w|);
      assert s[..n] == s[..|w|];
    }
    if FirstToken(s) == w {
      assert s[..n] == s[..|w|];
      var tail := s[n..];
      assert tail != "" ==> tail[0] == s[n] && IsSpace(tail[0]);
      assert tail != "" ==> tail[|tail| - 1] == s[|s| - 1] && !IsSpace(tail[|tail| - 1]);
    }
  }

  // --- At most one entry matches ---

  /** The row of a prefix in the table, 34 for other words. */
  function RowOf(w: string): nat {
    if |w| == 2 then RowOfTwo(w[0], w[1])
    else if |w| == 3 then RowOfThree(w[0], w[1], w[2])
    else if |w| == 4 then RowOfFour(w[0], w[1])
    else 34
  }

  function RowOfTwo(a: char, b: char): nat {
    if a == 'P' && b == 'L' then 0 else if a == 'L' && b == 'D' then 2 else if a == 'A' && b == 'O' then 7
    else if a == 'E' && b == 'A' then 8 else if a == 'A' && b == 'A' then 9 else if a == 'B' && b == 'P' then 10
    else if a == 'H' && b == 'A' then 11 else if a == 'S' && b == 'P' then 14 else if a == 'R' && b == 'P' then 15
    else if a == 'C' && b == 'P' then 19 else if a == 'P' && b == 'Z' then 31 else if a == 'L' && b == 'Z' then 32
    else if a == 'D' && b == 'Z' then 33
    else 34
  }

  function RowOfThree(a: char, b: char, c: char): nat {
    if a == 'L' && b == 'O' && c == 'A' then 3 else if a == 'S' && b == 'B' && c == 'F' then 12
    else if a == 'A' && b == 'T' && c == 'K' then 13 else if a == 'M' && b == 'S' && c == 'R' then 16
    else if a == 'A' && b == 'S' && c == 'R' then 17 else if a == 'C' && b == 'C' && c == 'P' then 18
    else if a == 'O' && b == 'B' && c == 'J' then 20 else if a == 'T' && b == 'A' && c == 'I' then 21
    else if a == 'N' && b == 'A' && c == 'I' then 22 else if a == 'T' && b == 'R' && c == 'P' then 23
    else if a == 'C' && b == 'F' && c == 'L' then 25 else if a == 'R' && b == 'F' && c == 'L' then 26
    else if a == 'N' && b == 'F' && c == 'L' then 27 else if a == 'N' && b == 'F' && c == 'A' then 28
    else if a == 'R' && b == 'F' && c == 'A' then 29 else if a == 'R' && b == 'O' && c == 'Z' then 30
    else 34
  }

  function RowOfFour(a: char, b: char): nat {
    if a == 'L' && b == 'D' then 1 else if a == 'F' && b == 'E' then 4
    else if a == 'F' && b == 'L' then 5 else if a == 'F' && b == 'S' then 24
    else 34
  }

  /** A prefix is a word of capitals that stands in its own row only, the boundary pattern stands in row 6, and every
      function code fits a template. */
  predicate RowIs(e: Entry, i: nat) {
    && |e.functionCode| <= 6
    && match e.pattern
       case Prefix(w) => IsCapitalWord(w) && RowOf(w) == i < 34
       case BndryOrBoundary => i == 6
  }

  predicate RowsFrom(table: seq<Entry>, first: nat) {
    forall i | 0 <= i < |table| :: RowIs(table[i], first + i)
  }

  lemma {:induction false} ManeuverRows()
    ensures |MANEUVER| == 7 && RowsFrom(MANEUVER, 0)
  {
    assert RowIs(MANEUVER[0], 0);
    assert RowIs(MANEUVER[1], 1);
    assert RowIs(MANEUVER[2], 2);
    assert RowIs(MANEUVER[3], 3);
    assert RowIs(MANEUVER[4], 4);
    assert RowIs(MANEUVER[5], 5);
    assert RowIs(MANEUVER[6], 6);
  }

  lemma {:induction false} AreasRows()
    ensures |AREAS| == 7 && RowsFrom(AREAS, 7)
  {
    assert RowIs(AREAS[0], 7);
    assert RowIs(AREAS[1], 8);
    assert RowIs(AREAS[2], 9);
    assert RowIs(AREAS[3], 10);
    assert RowIs(AREAS[4], 11);
    assert RowIs(AREAS[5], 12);
    assert RowIs(AREAS[6], 13);
  }

  lemma {:induction false} MobilityRows()
    ensures |MOBILITY| == 4 && RowsFrom(MOBILITY, 14)
  {
    assert RowIs(MOBILITY[0], 14);
    assert RowIs(MOBILITY[1], 15);
    assert RowIs(MOBILITY[2], 16);
    assert RowIs(MOBILITY[3], 17);
  }

  lemma {:induction false} ServiceSupportRows()
    ensures |SERVICE_SUPPORT| == 2 && RowsFrom(SERVICE_SUPPORT, 18)
  {
    assert RowIs(SERVICE_SUPPORT[0], 18);
    assert RowIs(SERVICE_SUPPORT[1], 19);
  }

  lemma {:induction false} TargetingRows()
    ensures |TARGETING| == 4 && RowsFrom(TARGETING, 20)
  {
    assert RowIs(TARGETING[0], 20);
    assert RowIs(TARGETING[1], 21);
    assert RowIs(TARGETING[2], 22);
    assert RowIs(TARGETING[3], 23);
  }

  lemma {:induction false} FireSupportRows()
    ensures |FIRE_SUPPORT| == 6 && RowsFrom(FIRE_SUPPORT, 24)
  {
    assert RowIs(FIRE_SUPPORT[0], 24);
    assert RowIs(FIRE_SUPPORT[1], 25);
    assert RowIs(FIRE_SUPPORT[2], 26);
    assert RowIs(FIRE_SUPPORT[3], 27);
    assert RowIs(FIRE_SUPPORT[4], 28);
    assert RowIs(FIRE_SUPPORT[5], 29);
  }

  lemma {:induction false} AviationRows()
    ensures |AVIATION| == 4 && RowsFrom(AVIATION, 30)
  {
    assert RowIs(AVIATION[0], 30);
    assert RowIs(AVIATION[1], 31);
    assert RowIs(AVIATION[2], 32);
    assert RowIs(AVIATION[3], 33);
  }

  lemma {:induction false} RowsJoin(front: seq<Entry>, rear: seq<Entry>, first: nat)
    requires RowsFrom(front, first) && RowsFrom(rear, first + |front|)
    ensures RowsFrom(front + rear, first)
  {
    hide RowIs;
  }

  lemma {:induction false} TableRows()
    ensures RowsFrom(PREFIX_TABLE, 0)
  {
    hide RowsFrom;
    ManeuverRows();
    AreasRows();
    MobilityRows();
    ServiceSupportRows();
    TargetingRows();
    FireSupportRows();
    AviationRows();
    RowsJoin(MANEUVER, AREAS, 0);
    RowsJoin(MANEUVER + AREAS, MOBILITY, 0);
    RowsJoin(MANEUVER + AREAS + MOBILITY, SERVICE_SUPPORT, 0);
    RowsJoin(MANEUVER + AREAS + MOBILITY + SERVICE_SUPPORT, TARGETING, 0);
    RowsJoin(MANEUVER + AREAS + MOBILITY + SERVICE_SUPPORT + TARGETING, FIRE_SUPPORT, 0);
    RowsJoin(MANEUVER + AREAS + MOBILITY + SERVICE_SUPPORT + TARGETING + FIRE_SUPPORT, AVIATION, 0);
  }

  lemma {:induction false} NoPrefixStartsLikeBoundary(w: string)
    requires RowOf(w) < 34 && |w| >= 2 && w[0] == 'B'
    ensures w[1] == 'P'
  {
  }

  /** No prefix of the table begins the way the boundary pattern does. */
  lemma {:induction false} BoundaryStandsApart(w: string, s: string)
    requires IsCapitalWord(w) && RowOf(w) < 34 && IsStripped(s) && Matches(Prefix(w), s)
    ensures !Matches(BndryOrBoundary, s)
  {
    hide RowOf, FirstToken;
    PrefixIsFirstToken(w, s);
    if StartsWith("BNDRY", s) {
      StartsWithLetters("BNDRY", s);
      NoPrefixStartsLikeBoundary(w);
    } else if StartsWith("BOUNDARY", s) {
      StartsWithLetters("BOUNDARY", s);
      NoPrefixStartsLikeBoundary(w);
    }
  }

  /** The table entries that match a label are the same entry. */
  ghost predicate Exclusive(table: seq<Entry>, s: string) {
    forall e, f | e in table && f in table && Matches(e.pattern, s) && Matches(f.pattern, s) :: e == f
  }

  lemma {:induction false} AtMostOneMatches(table: seq<Entry>, s: string, i: nat, j: nat)
    requires RowsFrom(table, 0) && IsStripped(s) && i < |table| && j < |table|
    requires Matches(table[i].pattern, s) && Matches(table[j].pattern, s)
    ensures i == j
  {
    hide Matches, RowOf, IsCapitalWord, FirstToken, IsStripped;
    var p, q := table[i].pattern, table[j].pattern;
    assert RowIs(table[i], i) && RowIs(table[j], j);
    if p.Prefix? && q.Prefix? {
      PrefixIsFirstToken(p.word, s);
      PrefixIsFirstToken(q.word, s);
    } else if p.Prefix? {
      BoundaryStandsApart(p.word, s);
    } else if q.Prefix? {
      BoundaryStandsApart(q.word, s);
    }
  }

  lemma {:induction false} TableIsExclusive(table: seq<Entry>, s: string)
    requires RowsFrom(table, 0) && IsStripped(s)
    ensures Exclusive(table, s)
  {
    hide Matches, RowsFrom, IsStripped;
    forall e, f | e in table && f in table && Matches(e.pattern, s) && Matches(f.pattern, s)
      ensures e == f
    {
      var i :| 0 <= i < |table| && table[i] == e;
      var j :| 0 <= j < |table| && table[j] == f;
      AtMostOneMatches(table, s, i, j);
    }
  }

  /** At most one entry of the recognizer's own table matches a label. */
  lemma {:induction false} PrefixTableIsExclusive(s: string)
    requires IsStripped(s)
    ensures Exclusive(PREFIX_TABLE, s)
  {
    hide RowsFrom, Exclusive, IsStripped;
    TableRows();
    TableIsExclusive(PREFIX_TABLE, s);
  }

  lemma {:induction false} FirstMatchIsTheMatch(table: seq<Entry>, s: string, e: Entry)
    requires Exclusive(table, s)
    ensures FirstMatch(table, s) == Some(e) <==> e in table && Matches(e.pattern, s)
  {
    hide Matches;
    if table != [] && !Matches(table[0].pattern, s) {
      assert e in table && Matches(e.pattern, s) <==> e in table[1..] && Matches(e.pattern, s);
      FirstMatchIsTheMatch(table[1..], s, e);
    }
  }

  /** Any arrangement of the entries of an exclusive table answers alike. */
  lemma {:induction false} SameEntriesSameMatch(table: seq<Entry>, other: seq<Entry>, s: string)
    requires Exclusive(table, s) && forall e :: e in table <==> e in other
    ensures FirstMatch(table, s) == FirstMatch(other, s)
  {
    hide Matches;
    var a, b := FirstMatch(table, s), FirstMatch(other, s);
    if a.Some? {
      FirstMatchIsTheMatch(table, s, a.value);
      FirstMatchIsTheMatch(other, s, a.value);
    } else if b.Some? {
      FirstMatchIsTheMatch(other, s, b.value);
      FirstMatchIsTheMatch(table, s, b.value);
    }
  }

  /** The boundary pattern as documented: either word, then a word boundary. */
  predicate DocumentedBoundary(s: string) {
    (StartsWith("BNDRY", s) && BoundaryAt(s, 5)) || (StartsWith("BOUNDARY", s) && BoundaryAt(s, 8))
  }

  /** Pattern and documentation agree exactly on the labels that do not run on behind BNDRY. */
  lemma {:induction false} BoundaryAsDocumentedIff(s: string)
    ensures (Matches(BndryOrBoundary, s) <==> DocumentedBoundary(s)) <==> !(StartsWith("BNDRY", s) && !BoundaryAt(s, 5))
  {
    hide BoundaryAt;
    NotBothWords(s);
  }

  lemma {:induction false} NotBothWords(s: string)
    ensures StartsWith("BNDRY", s) ==> !StartsWith("BOUNDARY", s)
  {
    SecondLetter("BNDRY", s);
    SecondLetter("BOUNDARY", s);
  }

  lemma {:induction false} SecondLetter(w: string, s: string)
    requires |w| >= 2
    ensures StartsWith(w, s) ==> Upper(s[1]) == w[1]
  {
    if StartsWith(w, s) {
      assert UpperAll(s[..|w|])[1] == Upper(s[1]);
    }
  }

  /** "Bndryline 4" is taken for a boundary. */
  lemma {:induction false} RunOnBoundary()
    ensures var s := "Bndryline 4";
            Matches(BndryOrBoundary, s) && !DocumentedBoundary(s)
  {
    var s := "Bndryline 4";
    assert s[..5] == "Bndry";
    assert UpperAll("Bndry") == "BNDRY";
    assert IsWord(s[5]);
    NotBothWords(s);
  }

  /** The layer of prefixes answers e exactly when e is in the table and the label's first word is its prefix, or the
      label begins with a boundary word. */
  lemma {:induction false} PrefixLayerIff(s: string, e: Entry)
    requires IsStripped(s)
    ensures FirstMatch(PREFIX_TABLE, s) == Some(e) <==>
            && e in PREFIX_TABLE
            && match e.pattern
               case Prefix(w) => FirstToken(s) == w
               case BndryOrBoundary => StartsWith("BNDRY", s) || (StartsWith("BOUNDARY", s) && BoundaryAt(s, 8))
  {
    hide RowsFrom, FirstMatch, RowOf, FirstToken, IsStripped, StartsWith;
    TableRows();
    PrefixTableIsExclusive(s);
    FirstMatchIsTheMatch(PREFIX_TABLE, s, e);
    if e in PREFIX_TABLE && e.pattern.Prefix? {
      InRow(PREFIX_TABLE, e);
      PrefixIsFirstToken(e.pattern.word, s);
    }
  }

  lemma {:induction false} InRow(table: seq<Entry>, e: Entry)
    requires RowsFrom(table, 0) && e in table
    ensures |e.functionCode| <= 6 && (e.pattern.Prefix? ==> IsCapitalWord(e.pattern.word))
  {
    hide RowOf, IsCapitalWord;
    var i :| 0 <= i < |table| && table[i] == e;
    assert RowIs(table[i], i);
  }

  // --- The whole pipeline ---

  lemma {:induction false} WorkingLabelIsStripped(name: Option<string>)
    ensures WorkingLabel(name).0 == "" || IsStripped(WorkingLabel(name).0)
  {
    var s := if name.Some? then Strip(name.value) else "";
    StripRightStops(StripLeft(if name.Some? then name.value else ""));
    if StartsWith("SUSPECTED", s) {
      StripRightStops(StripLeft(s[9 + Run(s[9..], IsSpace)..]));
    }
  }

  /** The order of the prefix table plays no part in the answer. */
  lemma {:induction false} TableOrderIrrelevant(other: seq<Entry>, name: Option<string>, shape: Shape, ctx: Context)
    requires forall e :: e in other <==> e in PREFIX_TABLE
    ensures RecognizeWith(other, name, shape, ctx) == RecognizeWith(PREFIX_TABLE, name, shape, ctx)
  {
    hide FirstMatch, FirstWord, IsTargetDesignator, IsRoute, ApplyAffiliation, AffilFromSidc, Template, WorkingLabel,
         RowsFrom, IsStripped, Exclusive;
    var s := WorkingLabel(name).0;
    WorkingLabelIsStripped(name);
    if s != "" {
      PrefixTableIsExclusive(s);
      SameEntriesSameMatch(PREFIX_TABLE, other, s);
    }
  }

  lemma {:induction false} FirstMatchInTable(table: seq<Entry>, s: string)
    ensures FirstMatch(table, s).Some? ==> FirstMatch(table, s).value in table
  {
    hide Matches;
    if table != [] && !Matches(table[0].pattern, s) {
      FirstMatchInTable(table[1..], s);
    }
  }

  lemma {:induction false} FirstWordFits(table: seq<WordEntry>, upper: string)
    requires forall w | w in table :: |w.functionCode| <= 6
    ensures FirstWord(table, upper).Some? ==> |FirstWord(table, upper).value.functionCode| <= 6
  {
    hide Contains;
    if table != [] && !Contains(upper, table[0].word) {
      FirstWordFits(table[1..], upper);
    }
  }

  lemma {:induction false} CodesFit(s: string, shape: Shape)
    ensures |Understand(PREFIX_TABLE, s, shape).functionCode| <= 6
  {
    hide FirstMatch, FirstWord, RowsFrom, IsTargetDesignator, IsRoute;
    TableRows();
    FirstMatchInTable(PREFIX_TABLE, s);
    if FirstMatch(PREFIX_TABLE, s).Some? {
      InRow(PREFIX_TABLE, FirstMatch(PREFIX_TABLE, s).value);
    }
    FirstWordFits(WORD_TABLE, UpperAll(s));
  }

  lemma {:induction false} AffilCharDecodes(a: Affiliation)
    ensures AffilOfChar(AffilChar(a), AFFILIATIONS) == a
  {
    AffilFoundAt(AFFILIATIONS, match a case Friend => 0 case Hostile => 1 case Neutral => 2 case Unknown => 3
                               case Suspect => 4 case AssumedFriend => 5 case Pending => 6);
  }

  lemma {:induction false} AffilFoundAt(names: seq<Affiliation>, i: nat)
    requires i < |names|
    ensures AffilOfChar(AffilChar(names[i]), names) == names[i]
  {
    if AffilChar(names[0]) == AffilChar(names[i]) {
      assert names[0] == names[i];
    } else {
      AffilFoundAt(names[1..], i - 1);
    }
  }

  /** The label, without surrounding whitespace, is the word "suspected" and more behind whitespace. */
  predicate SaysSuspected(name: Option<string>) {
    name.Some? && var s := Strip(name.value); StartsWith("SUSPECTED", s) && |s| > 9 && IsSpace(s[9])
  }

  lemma {:induction false} SuspectedIs(name: Option<string>)
    ensures WorkingLabel(name).1 == SaysSuspected(name)
  {
    hide Strip;
    var s := if name.Some? then Strip(name.value) else "";
    if |s| > 9 {
      assert s[9..][0] == s[9];
    }
  }

  predicate DiffersAtSecond(template: string, sidc: string, c: char) {
    |template| == |sidc| == 15 && sidc == template[1 := c]
  }

  /** Every label gets a code: 15 characters, those of its function's template but for the second, which reads back as
      the affiliation that the description, the default and the word "suspected" call for. */
  lemma {:induction false} RecognizedCode(name: Option<string>, shape: Shape, ctx: Context)
    ensures RecognizeWith(PREFIX_TABLE, name, shape, ctx).Some?
    ensures var r := RecognizeWith(PREFIX_TABLE, name, shape, ctx).value;
            var base := if SaysHostile(ctx) then Hostile else if SaysFriendly(ctx) then Friend else ctx.default;
            && Template(r.meaning.functionCode).Some?
            && DiffersAtSecond(Template(r.meaning.functionCode).value, r.sidc, AffilChar(r.affiliation))
            && r.affiliation == AffilFromSidc(r.sidc)
            && r.suspected == SaysSuspected(name)
            && (!r.suspected ==> r.affiliation == base)
            && (r.suspected && base == Friend ==> r.affiliation == AssumedFriend)
            && (r.suspected && base != Friend ==> r.affiliation == Suspect)
  {
    hide FirstMatch, FirstWord, Understand, WorkingLabel, AffilOfChar, Mentions;
    SuspectedIs(name);
    var (s, suspected) := WorkingLabel(name);
    var meaning := Understand(PREFIX_TABLE, s, shape);
    CodesFit(s, shape);
    var t := Template(meaning.functionCode).value;
    var affil := Choose(ctx, suspected).0;
    AffilCharDecodes(affil);
    assert [t[0]] + [AffilChar(affil)] + t[2..] == t[1 := AffilChar(affil)];
  }
}
