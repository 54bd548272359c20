/** Which layer of the recognizer answers a label, told on the text of the label and the tables' entries. */
module RecognizerLayers {
  import opened Recognizer
  import opened Seqs
  import opened Text

  // --- What the layers look for ---

  /** The same letters in any case; the pattern is in capitals. */
  predicate SameLetters(pattern: string, t: string) {
    |t| == |pattern| && forall i | 0 <= i < |t| ::
      t[i] == pattern[i] || ('A' <= pattern[i] <= 'Z' && t[i] as int == pattern[i] as int + 32)
  }

  predicate Begins(pattern: string, s: string) {
    |pattern| <= |s| && SameLetters(pattern, s[..|pattern|])
  }

  /** No letter, digit or underscore follows the first n characters. */
  predicate WordEndsAt(s: string, n: nat)
    requires n <= |s|
  {
    n == |s| || !('A' <= s[n] <= 'Z' || 'a' <= s[n] <= 'z' || '0' <= s[n] <= '9' || s[n] == '_')
  }

  /** The label's first word is the entry's prefix; or it begins with a boundary word. */
  predicate Prefixed(e: Entry, s: string) {
    match e.pattern
    case Prefix(word) => Begins(word, s) && (|s| == |word| || IsSpace(s[|word|]))
    case BndryOrBoundary => Begins("BNDRY", s) || (Begins("BOUNDARY", s) && WordEndsAt(s, 8))
  }

  predicate AnyPrefix(s: string) {
    exists e :: e in PREFIX_TABLE && Prefixed(e, s)
  }

  /** One or two capitals, then three or four digits, then no more of the word. */
  predicate IsDesignator(s: string) {
    exists n, m | 1 <= n <= 2 && 3 <= m <= 4 :: DesignatorOf(s, n, m)
  }

  predicate DesignatorOf(s: string, n: nat, m: nat) {
    && n + m <= |s| && WordEndsAt(s, n + m)
    && (forall i | 0 <= i < n :: 'A' <= s[i] <= 'Z')
    && (forall i | n <= i < n + m :: '0' <= s[i] <= '9')
  }

  /** The word stands somewhere in the label. */
  predicate Holds(s: string, word: string) {
    exists i | 0 <= i <= |s| :: HoldsAt(s, word, i)
  }

  predicate HoldsAt(s: string, word: string, i: nat) {
    i + |word| <= |s| && SameLetters(word, s[i..i + |word|])
  }

  /** The first word of the table that the label holds. */
  predicate HoldsFirst(s: string, j: nat) {
    && j < |WORD_TABLE| && Holds(s, WORD_TABLE[j].word)
    && forall i | 0 <= i < j :: !Holds(s, WORD_TABLE[i].word)
  }

  predicate IsWay(s: string) {
    (Begins("ROUTE", s) && WordEndsAt(s, 5)) || (Begins("AXIS", s) && WordEndsAt(s, 4))
  }

  // --- The label ---

  /** The word "suspected" and whitespace behind it. */
  predicate Suspected(t: string) {
    Begins("SUSPECTED", t) && |t| > 9 && IsSpace(t[9])
  }

  /** The label is the name without the whitespace around it, or what follows "suspected" there. */
  ghost predicate IsLabel(name: Option<string>, s: string, suspected: bool) {
    exists t :: StripsTo(if name.Some? then name.value else "", t) && LeavesLabel(t, s, suspected)
  }

  ghost predicate LeavesLabel(t: string, s: string, suspected: bool) {
    suspected == Suspected(t) && if suspected then StripsTo(t[9..], s) else s == t
  }

  // --- Letters in any case ---

  predicate NoLowerCase(w: string) {
    forall i | 0 <= i < |w| :: !('a' <= w[i] <= 'z')
  }

  lemma {:induction false} SameLettersIs(w: string, t: string)
    requires NoLowerCase(w)
    ensures SameLetters(w, t) <==> UpperAll(t) == w
  {
    if |t| == |w| {
      forall i | 0 <= i < |t|
        ensures t[i] == w[i] || ('A' <= w[i] <= 'Z' && t[i] as int == w[i] as int + 32) <==> UpperAll(t)[i] == w[i]
      {
      }
    }
  }

  lemma {:induction false} BeginsIs(w: string, s: string)
    requires NoLowerCase(w)
    ensures Begins(w, s) <==> StartsWith(w, s)
  {
    if |w| <= |s| {
      SameLettersIs(w, s[..|w|]);
    }
  }

  lemma {:induction false} WordEndsIs(s: string, n: nat)
    requires n <= |s|
    ensures WordEndsAt(s, n) <==> BoundaryAt(s, n)
  {
  }

  // --- The layers ---

  lemma {:induction false} FirstTokenIs(w: string, s: string)
    requires IsCapitalWord(w)
    ensures FirstToken(s) == w <==> Begins(w, s) && (|s| == |w| || IsSpace(s[|w|]))
  {
    BeginsIs(w, s);
    var n := Run(s, NotSpace);
    if Begins(w, s) && (|s| == |w| || IsSpace(s[|w|])) {
      StartsWithLetters(w, s);
      RunAtLeast(s, NotSpace, |w|);
    }
  }

  lemma {:induction false} PrefixedIs(s: string, e: Entry)
    requires IsStripped(s)
    ensures FirstMatch(PREFIX_TABLE, s) == Some(e) <==> e in PREFIX_TABLE && Prefixed(e, s)
  {
    hide FirstMatch, IsStripped, Begins, StartsWith, FirstToken, IsSpace, RowsFrom, IsCapitalWord, WordEndsAt,
         BoundaryAt;
    PrefixLayerIff(s, e);
    BeginsIs("BNDRY", s);
    BeginsIs("BOUNDARY", s);
    LongEnough("BOUNDARY", s);
    if Begins("BOUNDARY", s) {
      WordEndsIs(s, 8);
    }
    if e in PREFIX_TABLE && e.pattern.Prefix? {
      TableRows();
      InRow(PREFIX_TABLE, e);
      FirstTokenIs(e.pattern.word, s);
    }
  }

  lemma {:induction false} LongEnough(w: string, s: string)
    ensures Begins(w, s) ==> |w| <= |s|
  {
  }

  lemma {:induction false} NoPrefixedIs(s: string)
    requires IsStripped(s)
    ensures FirstMatch(PREFIX_TABLE, s) == None <==> !AnyPrefix(s)
  {
    hide Prefixed, FirstMatch, IsStripped;
    if FirstMatch(PREFIX_TABLE, s).Some? {
      PrefixedIs(s, FirstMatch(PREFIX_TABLE, s).value);
    }
    if e :| e in PREFIX_TABLE && Prefixed(e, s) {
      PrefixedIs(s, e);
    }
  }

  lemma {:induction false} DesignatorFound(s: string)
    ensures IsTargetDesignator(s) ==> IsDesignator(s)
  {
    if IsTargetDesignator(s) {
      var n := Run(s, IsLetter);
      var m := Run(s[n..], IsDigit);
      forall i | n <= i < n + m
        ensures '0' <= s[i] <= '9'
      {
        assert s[i] == s[n..][i - n] && IsDigit(s[n..][i - n]);
      }
      WordEndsIs(s, n + m);
      assert DesignatorOf(s, n, m);
    }
  }

  lemma {:induction false} DesignatorRuns(s: string, n: nat, m: nat)
    requires 1 <= n && 1 <= m && DesignatorOf(s, n, m)
    ensures Run(s, IsLetter) == n && Run(s[n..], IsDigit) == m && BoundaryAt(s, n + m)
  {
    hide Run;
    assert IsDigit(s[n]) && !IsLetter(s[n]);
    RunAtLeast(s, IsLetter, n);
    forall i | 0 <= i < m
      ensures IsDigit(s[n..][i])
    {
      assert s[n..][i] == s[n + i];
    }
    assert n + m < |s| ==> s[n..][m] == s[n + m];
    RunAtLeast(s[n..], IsDigit, m);
  }

  lemma {:induction false} DesignatorIs(s: string)
    ensures IsDesignator(s) <==> IsTargetDesignator(s)
  {
    hide DesignatorOf, Run, BoundaryAt;
    DesignatorFound(s);
    if n, m :| 1 <= n <= 2 && 3 <= m <= 4 && DesignatorOf(s, n, m) {
      DesignatorRuns(s, n, m);
    }
  }

  lemma {:induction false} HoldsIs(s: string, word: string)
    requires NoLowerCase(word)
    ensures Holds(s, word) <==> Contains(UpperAll(s), word)
  {
    hide SameLetters, NoLowerCase;
    forall i | 0 <= i <= |s|
      ensures HoldsAt(s, word, i) <==> FoundAt(UpperAll(s), word, i)
    {
      if i + |word| <= |s| {
        SameLettersIs(word, s[i..i + |word|]);
        assert UpperAll(s)[i..i + |word|] == UpperAll(s[i..i + |word|]);
      }
    }
  }

  lemma {:induction false} FirstWordIs(table: seq<WordEntry>, s: string)
    requires forall w | w in table :: NoLowerCase(w.word)
    ensures forall j | 0 <= j < |table| && Holds(s, table[j].word)
                       && (forall i | 0 <= i < j :: !Holds(s, table[i].word)) ::
              FirstWord(table, UpperAll(s)) == Some(table[j])
    ensures FirstWord(table, UpperAll(s)) == None <==> forall w | w in table :: !Holds(s, w.word)
  {
    hide Holds, Contains, NoLowerCase;
    if table != [] {
      HoldsIs(s, table[0].word);
      FirstWordIs(table[1..], s);
      assert forall j | 0 < j < |table| :: table[j] == table[1..][j - 1];
    }
  }

  lemma {:induction false} WayIs(s: string)
    ensures IsWay(s) <==> IsRoute(s)
  {
    hide BoundaryAt, WordEndsAt, StartsWith, Begins;
    BeginsIs("ROUTE", s);
    BeginsIs("AXIS", s);
    LongEnough("ROUTE", s);
    LongEnough("AXIS", s);
    if Begins("ROUTE", s) {
      WordEndsIs(s, 5);
    }
    if Begins("AXIS", s) {
      WordEndsIs(s, 4);
    }
  }

  // --- The pipeline ---

  lemma {:induction false} SuspectedLabel(t: string)
    ensures Suspected(t) <==> StartsWith("SUSPECTED", t) && Run(t[9..], IsSpace) > 0
    ensures Suspected(t) ==> |t| > 9 && Strip(t[9 + Run(t[9..], IsSpace)..]) == Strip(t[9..])
  {
    hide StartsWith, Begins, Strip, IsSpace;
    BeginsIs("SUSPECTED", t);
    LongEnough("SUSPECTED", t);
    if Begins("SUSPECTED", t) && |t| > 9 {
      assert t[9..][0] == t[9];
      var n := Run(t[9..], IsSpace);
      assert t[9..] == t[9..][..n] + t[9 + n..];
      StripSkips(t[9..][..n], t[9 + n..]);
    }
  }

  /** Every name has one label. */
  lemma {:induction false} LabelIff(name: Option<string>, s: string, suspected: bool)
    ensures IsLabel(name, s, suspected) <==> WorkingLabel(name) == (s, suspected)
  {
    hide StartsWith, Strip, StripsTo, Suspected, Run;
    var text := if name.Some? then name.value else "";
    StripNothing();
    var t := Strip(text);
    StripIff(text, t);
    SuspectedLabel(t);
    if Suspected(t) {
      StripIff(t[9..], s);
    }
    if t' :| StripsTo(text, t') && LeavesLabel(t', s, suspected) {
      StripIff(text, t');
    }
  }

  /** No word of the table stands in the label. */
  predicate HoldsNone(s: string) {
    forall w | w in WORD_TABLE :: !Holds(s, w.word)
  }

  /** Which layer answers a label, and what it says: the first word is looked up among the prefixes; other labels may be
      designators; of others the first table word they hold counts; of others a leading route or axis; and for the rest
      the shape decides. */
  predicate Says(s: string, shape: Shape, m: Meaning) {
    && (forall e | e in PREFIX_TABLE && Prefixed(e, s) ::
          m == Meaning(e.functionCode, Some(e.kind), e.status, PrefixLayer))
    && (!AnyPrefix(s) && IsDesignator(s) ==> m == Meaning("DPT", Some("target_reference_point"), Clean, TargetLayer))
    && (!AnyPrefix(s) && !IsDesignator(s) ==>
          && (forall j | 0 <= j < |WORD_TABLE| && HoldsFirst(s, j) ::
                m == Meaning(WORD_TABLE[j].functionCode, Some(WORD_TABLE[j].kind), BestEffort, WordLayer))
          && (HoldsNone(s) && IsWay(s) ==> m == Meaning("OLR", Some("route"), BestEffort, RouteLayer))
          && (HoldsNone(s) && !IsWay(s) ==>
                && m.kind == None && m.status == BestEffort && m.layer == GeometryFallback
                && m.functionCode == if shape.PointShape? then "GPP" else if shape.LineShape? then "GLG" else "GAG"))
  }

  lemma {:induction false} NothingInEmpty()
    ensures !AnyPrefix("") && !IsDesignator("") && HoldsNone("") && !IsWay("")
    ensures forall j | 0 <= j < |WORD_TABLE| :: !HoldsFirst("", j)
  {
    hide RowsFrom;
    TableRows();
    forall e | e in PREFIX_TABLE
      ensures !Prefixed(e, "")
    {
      InRow(PREFIX_TABLE, e);
    }
  }

  lemma {:induction false} WordsAreCapitals()
    ensures forall w | w in WORD_TABLE :: NoLowerCase(w.word)
  {
  }

  lemma {:induction false} MeaningIs(s: string, shape: Shape)
    requires s == "" || IsStripped(s)
    ensures Says(s, shape, Understand(PREFIX_TABLE, s, shape))
  {
    hide Prefixed, FirstMatch, FirstWord, Holds, IsDesignator, IsTargetDesignator, IsWay, IsRoute, IsStripped,
         NoLowerCase;
    if s == "" {
      NothingInEmpty();
    } else {
      forall e | e in PREFIX_TABLE && Prefixed(e, s)
        ensures FirstMatch(PREFIX_TABLE, s) == Some(e)
      {
        PrefixedIs(s, e);
      }
      NoPrefixedIs(s);
      DesignatorIs(s);
      WordsAreCapitals();
      FirstWordIs(WORD_TABLE, s);
      WayIs(s);
    }
  }

  /** Every name is answered as its label says. */
  lemma {:induction false} LayersIff(name: Option<string>, s: string, suspected: bool, shape: Shape, ctx: Context)
    requires IsLabel(name, s, suspected)
    ensures RecognizeWith(PREFIX_TABLE, name, shape, ctx).Some?
    ensures var r := RecognizeWith(PREFIX_TABLE, name, shape, ctx).value;
            r.suspected == suspected && Says(s, shape, r.meaning)
  {
    hide IsLabel, WorkingLabel, Understand, Template, ApplyAffiliation, Says, IsStripped;
    LabelIff(name, s, suspected);
    RecognizedCode(name, shape, ctx);
    WorkingLabelIsStripped(name);
    MeaningIs(s, shape);
  }

  // --- What descriptions say ---

  /** The words stand at i, apart from what surrounds them and with nothing but whitespace between the first and the
      second, if there is one. */
  predicate Stands(s: string, i: nat, first: string, second: Option<string>) {
    && i <= |s| && WordStartsAt(s, i) && HoldsAt(s, first, i)
    && match second
       case None => WordEndsAt(s, i + |first|)
       case Some(word) =>
         exists j | i + |first| < j <= |s| ::
           (forall k | i + |first| <= k < j :: IsSpace(s[k])) && HoldsAt(s, word, j) && WordEndsAt(s, j + |word|)
  }

  predicate WordStartsAt(s: string, i: nat)
    requires i <= |s|
  {
    i == 0 || !('A' <= s[i - 1] <= 'Z' || 'a' <= s[i - 1] <= 'z' || '0' <= s[i - 1] <= '9' || s[i - 1] == '_')
  }

  lemma {:induction false} StartsWithIs(s: string, w: string, i: nat)
    requires IsCapitalWord(w) && i <= |s|
    ensures StartsWith(w, s[i..]) <==> HoldsAt(s, w, i)
  {
    BeginsIs(w, s[i..]);
    assert |w| <= |s| - i ==> s[i..][..|w|] == s[i..i + |w|];
  }

  lemma {:induction false} OneWordIs(s: string, i: nat, word: string)
    requires IsCapitalWord(word)
    ensures PhraseAt(s, i, [word]) <==> Stands(s, i, word, None)
  {
    if i <= |s| {
      hide StartsWith, HoldsAt;
      StartsWithIs(s, word, i);
      if HoldsAt(s, word, i) {
        HoldsWithin(s, word, i);
        WordEndsIs(s, i + |word|);
      }
    }
  }

  lemma {:induction false} HoldsWithin(s: string, word: string, i: nat)
    requires IsCapitalWord(word) && HoldsAt(s, word, i)
    ensures i + |word| <= |s| && word != "" && !IsSpace(s[i])
  {
    assert s[i] == s[i..i + |word|][0];
    assert IsLetter(word[0]);
  }

  /** The only place where a second word can stand. */
  lemma {:induction false} SecondWordAt(s: string, end: nat, word: string, k: nat)
    requires IsCapitalWord(word) && end <= k && HoldsAt(s, word, k) && forall x | end <= x < k :: IsSpace(s[x])
    ensures end <= |s| && k == end + Run(s[end..], IsSpace)
  {
    hide HoldsAt, IsSpace;
    HoldsWithin(s, word, k);
    forall x | 0 <= x < k - end
      ensures IsSpace(s[end..][x])
    {
      assert s[end..][x] == s[end + x];
    }
    assert s[end..][k - end] == s[k];
    RunAtLeast(s[end..], IsSpace, k - end);
  }

  lemma {:induction false} TwoWordsIs(s: string, i: nat, first: string, second: string)
    requires IsCapitalWord(first) && IsCapitalWord(second)
    ensures PhraseAt(s, i, [first, second]) <==> Stands(s, i, first, Some(second))
  {
    hide StartsWith, HoldsAt, IsCapitalWord, IsSpace, WordEndsAt, BoundaryAt;
    if i <= |s| && HoldsAt(s, first, i) {
      HoldsWithin(s, first, i);
      var end := i + |first|;
      var j := end + Run(s[end..], IsSpace);
      StartsWithIs(s, first, i);
      StartsWithIs(s, second, j);
      assert [first, second][1..] == [second];
      assert PhraseEnd(s, j, [second]) == if HoldsAt(s, second, j) then Some(j + |second|) else None;
      assert PhraseEnd(s, i, [first, second]) == if j == end then None else PhraseEnd(s, j, [second]);
      if HoldsAt(s, second, j) {
        HoldsWithin(s, second, j);
        WordEndsIs(s, j + |second|);
        assert forall k | end <= k < j :: s[k] == s[end..][k - end];
      }
      forall k | end < k <= |s| && (forall x | end <= x < k :: IsSpace(s[x])) && HoldsAt(s, second, k)
        ensures k == j
      {
        SecondWordAt(s, end, second, k);
      }
    } else if i <= |s| {
      StartsWithIs(s, first, i);
    }
  }

  predicate HostileAt(d: string, i: nat) {
    || Stands(d, i, "ENEMY", None) || Stands(d, i, "HOSTILE", None) || Stands(d, i, "OPFOR", None)
    || Stands(d, i, "THREAT", None) || Stands(d, i, "RED", Some("FORCE"))
  }

  lemma {:induction false} HostileAtIs(d: string, i: nat)
    ensures (exists j | 0 <= j < 5 :: PhraseAt(d, i, HOSTILE_PHRASES[j])) <==> HostileAt(d, i)
  {
    hide PhraseAt, Stands;
    OneWordIs(d, i, "ENEMY");
    OneWordIs(d, i, "HOSTILE");
    OneWordIs(d, i, "OPFOR");
    OneWordIs(d, i, "THREAT");
    TwoWordsIs(d, i, "RED", "FORCE");
    var p := HOSTILE_PHRASES;
    assert p[0] == ["ENEMY"] && p[1] == ["HOSTILE"] && p[2] == ["OPFOR"] && p[3] == ["THREAT"];
    assert p[4] == ["RED", "FORCE"];
  }

  /** What a description must hold, in any case, to make an object hostile. */
  lemma {:induction false} HostileIff(d: string, default: Affiliation)
    ensures SaysHostile(Context(Some(d), default)) <==>
            exists i | 0 <= i <= |d| :: HostileAt(d, i)
  {
    hide PhraseAt, HostileAt;
    assert |HOSTILE_PHRASES| == 5;
    if Mentions(d, HOSTILE_PHRASES) {
      var i, j :| 0 <= i <= |d| && 0 <= j < 5 && PhraseAt(d, i, HOSTILE_PHRASES[j]);
      HostileAtIs(d, i);
    }
    if i :| 0 <= i <= |d| && HostileAt(d, i) {
      HostileAtIs(d, i);
    }
  }

  lemma {:induction false} FirstStandsAlone(d: string, i: nat, first: string, second: string)
    requires Stands(d, i, first, Some(second))
    ensures Stands(d, i, first, None)
  {
    hide HoldsAt;
    assert IsSpace(d[i + |first|]);
  }

  predicate FriendlyAt(d: string, i: nat) {
    || Stands(d, i, "FRIENDLY", None) || Stands(d, i, "BLUFOR", None) || Stands(d, i, "BLUE", Some("FORCE"))
    || Stands(d, i, "OWN", None)
  }

  lemma {:induction false} FriendlyAtIs(d: string, i: nat)
    ensures (exists j | 0 <= j < 5 :: PhraseAt(d, i, FRIENDLY_PHRASES[j])) <==> FriendlyAt(d, i)
  {
    hide PhraseAt, Stands;
    OneWordIs(d, i, "FRIENDLY");
    OneWordIs(d, i, "BLUFOR");
    TwoWordsIs(d, i, "BLUE", "FORCE");
    OneWordIs(d, i, "OWN");
    TwoWordsIs(d, i, "OWN", "FORCE");
    if Stands(d, i, "OWN", Some("FORCE")) {
      FirstStandsAlone(d, i, "OWN", "FORCE");
    }
    var p := FRIENDLY_PHRASES;
    assert p[0] == ["FRIENDLY"] && p[1] == ["BLUFOR"] && p[2] == ["BLUE", "FORCE"] && p[3] == ["OWN"];
    assert p[4] == ["OWN", "FORCE"];
  }

  /** What makes it friendly, unless it is hostile. */
  lemma {:induction false} FriendlyIff(d: string, default: Affiliation)
    ensures SaysFriendly(Context(Some(d), default)) <==>
            exists i | 0 <= i <= |d| :: FriendlyAt(d, i)
  {
    hide PhraseAt, FriendlyAt;
    assert |FRIENDLY_PHRASES| == 5;
    if Mentions(d, FRIENDLY_PHRASES) {
      var i, j :| 0 <= i <= |d| && 0 <= j < 5 && PhraseAt(d, i, FRIENDLY_PHRASES[j]);
      FriendlyAtIs(d, i);
    }
    if i :| 0 <= i <= |d| && FriendlyAt(d, i) {
      FriendlyAtIs(d, i);
    }
  }

  // --- The code ---

  lemma {:induction false} DashesAre(n: nat)
    ensures forall i | 0 <= i < n :: Dashes(n)[i] == '-'
  {
    if n > 0 {
      DashesAre(n - 1);
    }
  }

  /** The 15 characters of a template: graphic, unknown, ground, present, then the function code filled up with dashes
      to the tenth, then dashes. Only codes of up to six characters have one. */
  lemma {:induction false} TemplateIs(functionCode: string)
    ensures Template(functionCode).Some? <==> |functionCode| <= 6
    ensures var n := |functionCode|;
            n <= 6 ==>
              var t := Template(functionCode).value;
              |t| == 15 && t[..4] == "GUGP" && t[4..4 + n] == functionCode && forall i | 4 + n <= i < 15 :: t[i] == '-'
  {
    if |functionCode| <= 6 {
      DashesAre(6 - |functionCode|);
      DashesAre(5);
    }
  }

  /** The second character of a code is the letter of its affiliation, and the source says which signal decided it. */
  lemma {:induction false} AffiliationWritten(name: Option<string>, shape: Shape, ctx: Context)
    ensures RecognizeWith(PREFIX_TABLE, name, shape, ctx).Some?
    ensures var r := RecognizeWith(PREFIX_TABLE, name, shape, ctx).value;
            && |r.sidc| == 15
            && (r.affiliation, r.sidc[1]) in [
                 (Friend, 'F'), (Hostile, 'H'), (Neutral, 'N'), (Unknown, 'U'), (Suspect, 'S'), (AssumedFriend, 'A'),
                 (Pending, 'P')]
            && r.source == if r.suspected then SuspectedModifier
                           else if SaysHostile(ctx) then DescriptionHostile
                           else if SaysFriendly(ctx) then DescriptionFriendly else ConfiguredDefault
  {
    hide Understand, WorkingLabel, AffilFromSidc, Mentions, Template;
    RecognizedCode(name, shape, ctx);
  }
}
