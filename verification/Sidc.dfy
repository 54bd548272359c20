/** MIL-STD-2525 symbol codes: the function code and its geometry class. */
module Sidc {
  import opened Seqs

  datatype GeometryClass = POINT | LINEAR | AREA

  type ClassTable = map<string, GeometryClass>

  const AREA_CODES: ClassTable := map[
    "GAA" := AREA, "GAG" := AREA, "OAF" := AREA, "OAK" := AREA, "OAR" := AREA, "SLA" := AREA,
    "PY" := POINT, "NB" := AREA, "NC" := AREA, "OEB" := AREA, "OFD" := AREA, "OFS" := POINT,
    "OGB" := AREA, "OGF" := AREA, "BCB" := AREA, "BDE" := AREA]

  const LINEAR_CODES: ClassTable := map[
    "GLB" := LINEAR, "GLC" := LINEAR, "GLP" := LINEAR, "OLT" := LINEAR, "OLC" := LINEAR, "OLL" := LINEAR,
    "OLI" := LINEAR, "OLKGM" := LINEAR, "OLAA" := LINEAR, "OLAR" := LINEAR, "OLAV" := LINEAR]

  const OTHER_CODES: ClassTable := map[
    "OLAGS" := LINEAR, "OLAGM" := LINEAR, "OET" := LINEAR, "OEF" := LINEAR,
    "OMT" := POINT, "NDP" := POINT, "NEB" := POINT, "NEC" := POINT, "GPRI" := POINT, "BCL" := LINEAR]

  /** Function-code prefixes of the curated working set. */
  const FUNCTION_GEOMETRY: ClassTable := AREA_CODES + LINEAR_CODES + OTHER_CODES

  /** `raw.replace("-", "")` */
  function RemoveDashes(raw: string): string {
    if raw == "" then "" else (if raw[0] == '-' then "" else [raw[0]]) + RemoveDashes(raw[1..])
  }

  /** Positions 5 to 10 of the code without dashes. */
  function FunctionCode(sidc: string): string {
    if |sidc| < 5 then "" else RemoveDashes(sidc[4..if |sidc| < 10 then |sidc| else 10])
  }

  /** The value of the longest key among the prefixes of fc of length n down to 2. */
  function LongestFrom(table: ClassTable, fc: string, n: nat): Option<GeometryClass>
    requires n <= |fc|
  {
    if n < 2 then None
    else if fc[..n] in table then Some(table[fc[..n]])
    else LongestFrom(table, fc, n - 1)
  }

  function ClassOf(table: ClassTable, fc: string): Option<GeometryClass> {
    if fc == "" then None
    else if fc in table then Some(table[fc])
    else LongestFrom(table, fc, |fc|)
  }

  function Classify(table: ClassTable, sidc: string): Option<GeometryClass> {
    ClassOf(table, FunctionCode(sidc))
  }

  /** classify_geometry */
  method ClassifyGeometry(table: ClassTable, sidc: string) returns (r: Option<GeometryClass>)
    ensures r == Classify(table, sidc)
  {
    var fc := FunctionCode(sidc);
    if fc == "" {
      return None;
    }
    if fc in table {
      return Some(table[fc]);
    }
    var n := |fc|;
    while n > 1
      invariant 1 <= n <= |fc|
      invariant LongestFrom(table, fc, n) == LongestFrom(table, fc, |fc|)
    {
      var prefix := fc[..n];
      if prefix in table {
        return Some(table[prefix]);
      }
      n := n - 1;
    }
    return None;
  }

  // --- Longest prefix ---

  /** The keys the lookup can use for a function code: non-empty prefixes, of length one only if they are the whole
      code. */
  predicate Usable(table: ClassTable, fc: string, key: string) {
    key in table && key <= fc && (|key| >= 2 || (key == fc && fc != ""))
  }

  predicate IsLongest(table: ClassTable, fc: string, key: string) {
    Usable(table, fc, key) && forall n | |key| < n <= |fc| :: !Usable(table, fc, fc[..n])
  }

  lemma {:induction false} LongestFromIs(table: ClassTable, fc: string, n: nat)
    requires n <= |fc|
    ensures match LongestFrom(table, fc, n)
            case None => forall m | 2 <= m <= n :: fc[..m] !in table
            case Some(v) => exists m | 2 <= m <= n ::
                              fc[..m] in table && table[fc[..m]] == v && forall l | m < l <= n :: fc[..l] !in table
  {
    if n >= 2 && fc[..n] !in table {
      LongestFromIs(table, fc, n - 1);
    }
  }

  /** For any table and any symbol code the class is that of the longest usable key, and there is none exactly if no
      key is usable. */
  lemma {:induction false} LongestPrefixWins(table: ClassTable, fc: string)
    ensures match ClassOf(table, fc)
            case None => forall key :: !Usable(table, fc, key)
            case Some(v) => exists key :: IsLongest(table, fc, key) && table[key] == v
  {
    LongestFromIs(table, fc, |fc|);
    assert fc[..|fc|] == fc;
    match ClassOf(table, fc)
    case None =>
      forall key
        ensures !Usable(table, fc, key)
      {
        assert key <= fc ==> key == fc[..|key|];
      }
    case Some(v) =>
      if fc in table {
        assert IsLongest(table, fc, fc);
      } else {
        var m :| 2 <= m <= |fc| && fc[..m] in table && table[fc[..m]] == v
                && forall l | m < l <= |fc| :: fc[..l] !in table;
        assert IsLongest(table, fc, fc[..m]);
      }
  }

  lemma {:induction false} AreaKeyLength(key: string)
    ensures key in AREA_CODES ==> |key| >= 2
  {
  }

  lemma {:induction false} LinearKeyLength(key: string)
    ensures key in LINEAR_CODES ==> |key| >= 2
  {
  }

  lemma {:induction false} OtherKeyLength(key: string)
    ensures key in OTHER_CODES ==> |key| >= 2
  {
  }

  /** In the curated table every key has at least two characters, so every key that prefixes the code is usable. */
  lemma {:induction false} CuratedKeysUsable(fc: string, key: string)
    requires key in FUNCTION_GEOMETRY && key <= fc
    ensures Usable(FUNCTION_GEOMETRY, fc, key)
  {
    hide AREA_CODES, LINEAR_CODES, OTHER_CODES;
    AreaKeyLength(key);
    LinearKeyLength(key);
    OtherKeyLength(key);
  }

  // --- What the function code is ---

  /** The code without its trailing dashes, which is what the documentation promises. */
  function StripTrailing(raw: string): string {
    if raw != "" && raw[|raw| - 1] == '-' then StripTrailing(raw[..|raw| - 1]) else raw
  }

  lemma {:induction false} RemoveDashesConcat(a: string, b: string)
    ensures RemoveDashes(a + b) == RemoveDashes(a) + RemoveDashes(b)
  {
    if a == "" {
      assert a + b == b;
    } else {
      assert (a + b)[1..] == a[1..] + b;
      RemoveDashesConcat(a[1..], b);
    }
  }

  lemma {:induction false} RemoveDashesLength(raw: string)
    ensures '-' !in raw ==> RemoveDashes(raw) == raw
    ensures '-' in raw ==> |RemoveDashes(raw)| < |raw|
    ensures |RemoveDashes(raw)| <= |raw|
  {
    if raw != "" {
      RemoveDashesLength(raw[1..]);
      assert raw == [raw[0]] + raw[1..];
    }
  }

  lemma {:induction false} RemoveDashesOfStripped(raw: string)
    ensures RemoveDashes(raw) == RemoveDashes(StripTrailing(raw))
  {
    if raw != "" && raw[|raw| - 1] == '-' {
      var n := |raw| - 1;
      RemoveDashesOfStripped(raw[..n]);
      assert raw == raw[..n] + [raw[n]];
      RemoveDashesConcat(raw[..n], [raw[n]]);
      assert RemoveDashes([raw[n]]) == "";
    }
  }

  lemma {:induction false} OnlyDashes(fill: string)
    requires forall c | c in fill :: c == '-'
    ensures RemoveDashes(fill) == ""
  {
    if fill != "" {
      assert fill[0] in fill && forall c | c in fill[1..] :: c in fill;
      OnlyDashes(fill[1..]);
    }
  }

  /** The function code stands at positions 5 to 10, filled up with dashes, whatever stands before and behind. */
  lemma {:induction false} FunctionCodeIs(head: string, code: string, fill: string, tail: string)
    requires |head| == 4 && '-' !in code && forall c | c in fill :: c == '-'
    requires |code| + |fill| == 6 || (|code| + |fill| < 6 && tail == "")
    ensures FunctionCode(head + code + fill + tail) == code
  {
    hide RemoveDashes;
    var sidc := head + code + fill + tail;
    OnlyDashes(fill);
    RemoveDashesLength(code);
    RemoveDashesConcat(code, fill);
    assert code + "" == code;
    if |sidc| < 5 {
      assert code == "";
    } else {
      assert sidc[4..if |sidc| < 10 then |sidc| else 10] == code + fill;
    }
  }

  /** The code removes dashes everywhere, not only trailing ones as documented: the two agree exactly when no dash
      is left inside. */
  lemma {:induction false} OnlyTrailingDashesIff(raw: string)
    ensures RemoveDashes(raw) == StripTrailing(raw) <==> '-' !in StripTrailing(raw)
  {
    RemoveDashesOfStripped(raw);
    RemoveDashesLength(StripTrailing(raw));
  }

  /** A code with an inner dash: the dash vanishes, and the graphic is classified as GAA. */
  lemma {:induction false} InnerDashClassified(table: ClassTable)
    requires "GAA" in table
    ensures StripTrailing("GA-A--") == "GA-A"
    ensures Classify(table, "GFGPGA-A-------") == Some(table["GAA"])
  {
    var s := "GFGPGA-A-------";
    var raw := s[4..10];
    assert raw == "GA-A--" == "GA-A-" + "-" && "GA-A-" == "GA-A" + "-";
    assert "GA-A--"[..5] == "GA-A-" && "GA-A-"[..4] == "GA-A";
    assert RemoveDashes("--") == "";
    assert RemoveDashes("A--") == "A" by { assert "A--"[1..] == "--"; }
    assert RemoveDashes("-A--") == "A" by { assert "-A--"[1..] == "A--"; }
    assert RemoveDashes("A-A--") == "AA" by { assert "A-A--"[1..] == "-A--"; }
    assert RemoveDashes("GA-A--") == "GAA" by { assert "GA-A--"[1..] == "A-A--"; }
  }
}
