/** Python's string stripping. */
module Text {

  /** What str.strip removes. */
  predicate IsSpace(c: char) {
    var n := c as int;
    || 0x09 <= n <= 0x0D || 0x1C <= n <= 0x20 || n == 0x85 || n == 0xA0 || n == 0x1680
    || 0x2000 <= n <= 0x200A || n == 0x2028 || n == 0x2029 || n == 0x202F || n == 0x205F || n == 0x3000
  }

  function StripLeft(s: string): string {
    if s != "" && IsSpace(s[0]) then StripLeft(s[1..]) else s
  }

  function StripRight(s: string): string {
    if s != "" && IsSpace(s[|s| - 1]) then StripRight(s[..|s| - 1]) else s
  }

  function Strip(s: string): string {
    StripRight(StripLeft(s))
  }

  lemma {:induction false} StripNothing()
    ensures Strip("") == ""
  {
  }

  lemma {:induction false} StripRightKeepsFirst(s: string)
    ensures StripRight(s) == "" || (s != "" && StripRight(s)[0] == s[0])
    ensures StripRight(StripRight(s)) == StripRight(s)
  {
    if s != "" && IsSpace(s[|s| - 1]) {
      StripRightKeepsFirst(s[..|s| - 1]);
    }
  }

  lemma {:induction false} StripLeftStops(s: string)
    ensures StripLeft(s) == "" || !IsSpace(StripLeft(s)[0])
  {
    if s != "" && IsSpace(s[0]) {
      StripLeftStops(s[1..]);
    }
  }

  lemma {:induction false} StripRightStops(s: string)
    ensures StripRight(s) == "" || !IsSpace(StripRight(s)[|StripRight(s)| - 1])
  {
    if s != "" && IsSpace(s[|s| - 1]) {
      StripRightStops(s[..|s| - 1]);
    }
  }

  predicate AllSpace(s: string) {
    forall i | 0 <= i < |s| :: IsSpace(s[i])
  }

  predicate IsTrimmed(s: string) {
    s == "" || (!IsSpace(s[0]) && !IsSpace(s[|s| - 1]))
  }

  /** t is s without the whitespace around it. */
  ghost predicate StripsTo(s: string, t: string) {
    IsTrimmed(t) && exists v, w :: IsAround(s, v, t, w)
  }

  predicate IsAround(s: string, v: string, t: string, w: string) {
    s == v + t + w && AllSpace(v) && AllSpace(w)
  }

  lemma {:induction false} StripLeftTakes(s: string)
    ensures var n := |s| - |StripLeft(s)|;
            n >= 0 && StripLeft(s) == s[n..] && AllSpace(s[..n])
  {
    if s != "" && IsSpace(s[0]) {
      var rest := s[1..];
      StripLeftTakes(rest);
      var n := |rest| - |StripLeft(rest)|;
      assert rest[n..] == s[n + 1..];
      assert forall i | 1 <= i <= n :: s[i] == rest[..n][i - 1];
    }
  }

  lemma {:induction false} StripRightTakes(s: string)
    ensures StripRight(s) <= s && AllSpace(s[|StripRight(s)|..])
  {
    if s != "" && IsSpace(s[|s| - 1]) {
      var front := s[..|s| - 1];
      StripRightTakes(front);
      var n := |StripRight(front)|;
      assert forall i | n <= i < |front| :: s[i] == front[n..][i - n];
    }
  }

  lemma {:induction false} StripLeftOver(v: string, t: string)
    requires AllSpace(v) && (t == "" || !IsSpace(t[0]))
    ensures StripLeft(v + t) == t
  {
    if v == "" {
      assert v + t == t;
    } else {
      assert (v + t)[1..] == v[1..] + t;
      StripLeftOver(v[1..], t);
    }
  }

  lemma {:induction false} StripRightOver(t: string, w: string)
    requires AllSpace(w) && (t == "" || !IsSpace(t[|t| - 1]))
    ensures StripRight(t + w) == t
  {
    if w == "" {
      assert t + w == t;
    } else {
      var n := |t + w| - 1;
      assert (t + w)[..n] == t + w[..|w| - 1];
      StripRightOver(t, w[..|w| - 1]);
    }
  }

  lemma {:induction false} StripReached(s: string)
    ensures StripsTo(s, Strip(s))
  {
    hide StripLeft, StripRight, AllSpace, IsSpace;
    var left := StripLeft(s);
    StripLeftTakes(s);
    StripRightTakes(left);
    var v, w := s[..|s| - |left|], left[|Strip(s)|..];
    StripLeftStops(s);
    StripRightKeepsFirst(left);
    StripRightStops(left);
    assert v + Strip(s) + w == v + (Strip(s) + w);
    assert IsAround(s, v, Strip(s), w);
  }

  lemma {:induction false} StripOnly(s: string, v: string, t: string, w: string)
    requires IsTrimmed(t) && IsAround(s, v, t, w)
    ensures Strip(s) == t
  {
    hide StripLeft, StripRight, IsSpace;
    if t == "" {
      assert s == (v + w) + "";
      StripLeftOver(v + w, "");
      StripRightOver("", "");
      assert "" + "" == "";
    } else {
      assert s == v + (t + w);
      assert (t + w)[0] == t[0];
      StripLeftOver(v, t + w);
      StripRightOver(t, w);
    }
  }

  /** Stripping takes all the whitespace at both ends and nothing else. */
  lemma {:induction false} StripIff(s: string, t: string)
    ensures Strip(s) == t <==> StripsTo(s, t)
  {
    hide Strip, IsAround, IsTrimmed;
    StripReached(s);
    if StripsTo(s, t) {
      var v, w :| IsAround(s, v, t, w);
      StripOnly(s, v, t, w);
    }
  }

  lemma {:induction false} StripSkips(g: string, s: string)
    requires AllSpace(g)
    ensures Strip(g + s) == Strip(s)
  {
    hide Strip, IsTrimmed, IsSpace;
    StripReached(s);
    var v, w :| IsAround(s, v, Strip(s), w);
    assert g + s == (g + v) + Strip(s) + w;
    StripOnly(g + s, g + v, Strip(s), w);
  }
}
