// findSetMatches of pkg/inverted/querier.go: alternations of escaped literals.

module Literals {

  /** The bytes that isRegexMetaCharacter finds in its bitmap. */
  predicate IsMeta(c: char) {
    || c == '.' || c == '+' || c == '*'
    || c == '?' || c == '(' || c == ')'
    || c == '|' || c == '[' || c == ']'
    || c == '{' || c == '}' || c == '^'
    || c == '$'
  }

  /** The characters that the source lists. */
  const META := ".+*?()|[]{}^$"

  lemma MetaListed(c: char)
    ensures IsMeta(c) <==> c in META
  {
    assert META[0] == '.' && META[1] == '+' && META[2] == '*' && META[3] == '?' && META[4] == '(' && META[5] == ')';
    assert META[6] == '|' && META[7] == '[' && META[8] == ']' && META[9] == '{' && META[10] == '}' && META[11] == '^';
    assert META[12] == '$' && |META| == 13;
  }

  // ---- what a pattern of the fragment says

  /** A character of a literal, as written in a pattern. */
  datatype Lit = Plain(c: char) | Escaped(c: char)

  predicate LitOk(l: Lit) {
    match l
    case Plain(c) => !IsMeta(c) && c != '\\'
    case Escaped(c) => IsMeta(c) || c == '\\'
  }

  predicate WordOk(w: seq<Lit>) {
    forall i :: 0 <= i < |w| ==> LitOk(w[i])
  }

  predicate AltsOk(alts: seq<seq<Lit>>) {
    alts != [] && forall i :: 0 <= i < |alts| ==> WordOk(alts[i])
  }

  function RenderLit(l: Lit): string {
    match l
    case Plain(c) => [c]
    case Escaped(c) => ['\\', c]
  }

  function RenderWord(w: seq<Lit>): string {
    if w == [] then "" else RenderWord(w[..|w| - 1]) + RenderLit(w[|w| - 1])
  }

  /** The alternatives joined by bars. */
  function Render(alts: seq<seq<Lit>>): string {
    if alts == [] then "" else
      var last := RenderWord(alts[|alts| - 1]);
      if |alts| == 1 then last else Render(alts[..|alts| - 1]) + "|" + last
  }

  function Text(w: seq<Lit>): (s: string)
    ensures |s| == |w|
  {
    seq(|w|, i requires 0 <= i < |w| => w[i].c)
  }

  function Texts(alts: seq<seq<Lit>>): (ss: seq<string>)
    ensures |ss| == |alts|
  {
    seq(|alts|, i requires 0 <= i < |alts| => Text(alts[i]))
  }

  // ---- the scan

  /** The state of the scan: given up, or the texts read so far and the escape flag. */
  datatype Scan = Failed | Reading(sets: seq<string>, escaped: bool)

  /** The text is appended to the last set. */
  function Extend(sets: seq<string>, t: string): (r: seq<string>)
    requires sets != []
    ensures |r| == |sets|
  {
    sets[|sets| - 1 := sets[|sets| - 1] + t]
  }

  lemma ExtendTwice(sets: seq<string>, t: string, u: string)
    requires sets != []
    ensures Extend(Extend(sets, t), u) == Extend(sets, t + u)
  {
    assert sets[|sets| - 1] + t + u == sets[|sets| - 1] + (t + u);
  }

  function ScanStep(sets: seq<string>, escaped: bool, c: char): (st: Scan)
    requires sets != []
    ensures st.Reading? ==> st.sets != []
  {
    if escaped then
      if IsMeta(c) || c == '\\' then Reading(Extend(sets, [c]), false) else Failed
    else if IsMeta(c) then
      if c == '|' then Reading(sets + [""], false) else Failed
    else if c == '\\' then Reading(sets, true)
    else Reading(Extend(sets, [c]), false)
  }

  function ScanAll(body: string): (st: Scan)
    ensures st.Reading? ==> st.sets != []
  {
    if body == [] then Reading([""], false) else
      ScanNext(ScanAll(body[..|body| - 1]), body[|body| - 1])
  }

  function ScanNext(st: Scan, c: char): (r: Scan)
    requires st.Reading? ==> st.sets != []
    ensures r.Reading? ==> r.sets != []
  {
    if st.Failed? then Failed else ScanStep(st.sets, st.escaped, c)
  }

  lemma ScanSnoc(s: string, c: char)
    ensures ScanAll(s + [c]) == ScanNext(ScanAll(s), c)
  {
    assert (s + [c])[..|s|] == s;
  }

  function NonEmpty(sets: seq<string>): seq<string> {
    if sets == [] then [] else
      NonEmpty(sets[..|sets| - 1]) + if |sets[|sets| - 1]| > 0 then [sets[|sets| - 1]] else []
  }

  function Wrap(v: string): string {
    "^(?:" + v + ")$"
  }

  /** How many backslashes the text ends in. */
  function Trail(s: string): nat {
    if s != "" && s[|s| - 1] == '\\' then Trail(s[..|s| - 1]) + 1 else 0
  }

  /** A metacharacter other than the bar that no backslash escapes. */
  predicate BareAt(v: string, k: int) {
    0 <= k < |v| && v[k] in ".+*?()[]{}^$" && Trail(v[..k]) % 2 == 0
  }

  /** An escaped character that needs no escaping, such as the d of \d. */
  predicate ClassAt(v: string, k: int) {
    0 <= k < |v| && v[k] !in ".+*?()|[]{}^$\\" && Trail(v[..k]) % 2 == 1
  }

  /** The characters of a pattern tell by themselves whether it is given up. */
  predicate GivenUp(v: string) {
    exists k :: 0 <= k < |v| && (BareAt(v, k) || ClassAt(v, k))
  }

  lemma BareOrClass(c: char)
    ensures c in ".+*?()[]{}^$" <==> IsMeta(c) && c != '|'
    ensures c in ".+*?()|[]{}^$\\" <==> IsMeta(c) || c == '\\'
  {
    MetaListed(c);
    assert META == ".+*?()" + "|" + "[]{}^$";
    assert ".+*?()[]{}^$" == ".+*?()" + "[]{}^$";
    assert ".+*?()|[]{}^$\\" == META + "\\";
  }

  /** The scan gives up exactly on those patterns, and else is in an escape after an odd run of backslashes. */
  lemma {:induction false} ScanGivesUp(v: string)
    ensures ScanAll(v).Failed? <==> GivenUp(v)
    ensures ScanAll(v).Reading? ==> (ScanAll(v).escaped <==> Trail(v) % 2 == 1)
  {
    if v != "" {
      var init, c := v[..|v| - 1], v[|v| - 1];
      ScanGivesUp(init);
      BareOrClass(c);
      GivenUpMore(v);
    }
  }

  lemma GivenUpMore(v: string)
    requires v != ""
    ensures GivenUp(v) <==> GivenUp(v[..|v| - 1]) || BareAt(v, |v| - 1) || ClassAt(v, |v| - 1)
  {
    var n := |v| - 1;
    forall k | 0 <= k < n ensures BareAt(v, k) == BareAt(v[..n], k) && ClassAt(v, k) == ClassAt(v[..n], k) {
      assert v[..n][..k] == v[..k];
    }
  }

  method FindSetMatches(pattern: string) returns (matches: seq<string>)
    ensures forall v :: pattern == Wrap(v) ==>
              matches == if ScanAll(v).Failed? then [] else NonEmpty(ScanAll(v).sets)
    ensures forall v :: pattern == Wrap(v) && GivenUp(v) ==> matches == []
    ensures (forall v :: pattern != Wrap(v)) ==> matches == []
  {
    if |pattern| < 6 || pattern[..4] != "^(?:" || pattern[|pattern| - 2..] != ")$" {
      return [];
    }
    ghost var body := pattern[4..|pattern| - 2];
    assert pattern == Wrap(body);
    assert forall v :: pattern == Wrap(v) ==> v == Wrap(v)[4..|Wrap(v)| - 2] == body;
    ScanGivesUp(body);
    var sets, failed := ScanBody(pattern, body);
    if failed {
      return [];
    }
    matches := [];
    for k := 0 to |sets|
      invariant matches == NonEmpty(sets[..k])
    {
      assert sets[..k + 1][..k] == sets[..k];
      if |sets[k]| > 0 {
        matches := matches + [sets[k]];
      }
    }
    assert sets[..|sets|] == sets;
  }

  /** The scanning loop of findSetMatches. */
  method ScanBody(pattern: string, ghost body: string) returns (sets: seq<string>, failed: bool)
    requires |pattern| >= 6 && body == pattern[4..|pattern| - 2]
    ensures if failed then ScanAll(body).Failed? else ScanAll(body).Reading? && ScanAll(body).sets == sets
  {
    var escaped := false;
    sets := [""];
    for i := 4 to |pattern| - 2
      invariant sets != [] && ScanAll(body[..i - 4]) == Reading(sets, escaped)
    {
      var c := pattern[i];
      assert body[..i - 3] == body[..i - 4] + [c];
      ScanSnoc(body[..i - 4], c);
      if escaped {
        if IsMeta(c) {
          sets := Extend(sets, [c]);
        } else if c == '\\' {
          sets := Extend(sets, ['\\']);
        } else {
          FailedStays(body, i - 3);
          return sets, true;
        }
        escaped := false;
      } else {
        if IsMeta(c) {
          if c == '|' {
            sets := sets + [""];
          } else {
            FailedStays(body, i - 3);
            return sets, true;
          }
        } else if c == '\\' {
          escaped := true;
        } else {
          sets := Extend(sets, [c]);
        }
      }
    }
    assert body[..|body|] == body;
    return sets, false;
  }

  lemma {:induction false} FailedStays(body: string, k: nat)
    requires k <= |body| && ScanAll(body[..k]).Failed?
    ensures ScanAll(body).Failed?
    decreases |body|
  {
    if k < |body| {
      assert body[..|body| - 1][..k] == body[..k];
      FailedStays(body[..|body| - 1], k);
    } else {
      assert body[..k] == body;
    }
  }

  // ---- the scan reads what the pattern says

  /** One literal character. */
  lemma ScanLit(l: Lit, before: string, sets: seq<string>)
    requires LitOk(l) && sets != [] && ScanAll(before) == Reading(sets, false)
    ensures ScanAll(before + RenderLit(l)) == Reading(Extend(sets, [l.c]), false)
  {
    match l
    case Plain(c) =>
      ScanSnoc(before, c);
    case Escaped(c) =>
      ScanSnoc(before, '\\');
      ScanSnoc(before + ['\\'], c);
      assert before + RenderLit(l) == before + ['\\'] + [c];
  }

  lemma Assoc(a: string, b: string, c: string)
    ensures a + (b + c) == a + b + c
  {
  }

  lemma TextSnoc(w: seq<Lit>)
    requires w != [] && WordOk(w)
    ensures Text(w) == Text(w[..|w| - 1]) + [w[|w| - 1].c] && WordOk(w[..|w| - 1]) && LitOk(w[|w| - 1])
  {
  }

  lemma ExtendEmpty(sets: seq<string>)
    requires sets != []
    ensures Extend(sets, "") == sets
  {
    assert sets[|sets| - 1] + "" == sets[|sets| - 1];
  }

  lemma {:induction false} ScanWord(w: seq<Lit>, before: string, sets: seq<string>)
    requires WordOk(w) && sets != [] && ScanAll(before) == Reading(sets, false)
    ensures ScanAll(before + RenderWord(w)) == Reading(Extend(sets, Text(w)), false)
  {
    if w == [] {
      assert before + RenderWord(w) == before && Text(w) == "";
      ExtendEmpty(sets);
    } else {
      var init, l := w[..|w| - 1], w[|w| - 1];
      TextSnoc(w);
      ScanWord(init, before, sets);
      Assoc(before, RenderWord(init), RenderLit(l));
      ScanLit(l, before + RenderWord(init), Extend(sets, Text(init)));
      ExtendTwice(sets, Text(init), [l.c]);
    }
  }

  /** Reading a rendered alternation gives back its texts. */
  lemma {:induction false} ScanRender(alts: seq<seq<Lit>>)
    requires AltsOk(alts)
    ensures ScanAll(Render(alts)) == Reading(Texts(alts), false)
  {
    var init, last := alts[..|alts| - 1], alts[|alts| - 1];
    assert init + [last] == alts && WordOk(last);
    if |alts| == 1 {
      TextsSnoc(init, last);
      ScanFirst(last);
    } else {
      ScanRender(init);
      TextsSnoc(init, last);
      ScanNextAlt(Render(init), Texts(init), last);
    }
  }

  lemma ScanFirst(last: seq<Lit>)
    requires WordOk(last)
    ensures ScanAll(RenderWord(last)) == Reading(Extend([""], Text(last)), false)
  {
    ScanWord(last, "", [""]);
    assert "" + RenderWord(last) == RenderWord(last);
  }

  lemma ScanNextAlt(before: string, sets: seq<string>, last: seq<Lit>)
    requires WordOk(last) && sets != [] && ScanAll(before) == Reading(sets, false)
    ensures ScanAll(before + "|" + RenderWord(last)) == Reading(Extend(sets + [""], Text(last)), false)
  {
    ScanSnoc(before, '|');
    ScanWord(last, before + "|", sets + [""]);
  }

  lemma TextsSnoc(init: seq<seq<Lit>>, last: seq<Lit>)
    ensures Texts(init + [last]) == Extend(Texts(init) + [""], Text(last))
  {
    assert "" + Text(last) == Text(last);
  }

  /** Whatever the scan accepts is a rendered alternation of the texts read, but for a dangling backslash. */
  lemma {:induction false} ScanParses(body: string) returns (alts: seq<seq<Lit>>)
    requires ScanAll(body).Reading?
    ensures AltsOk(alts) && Texts(alts) == ScanAll(body).sets
    ensures body == Render(alts) + if ScanAll(body).escaped then "\\" else ""
  {
    if body == [] {
      alts := [[]];
      assert Texts(alts) == [""];
      return;
    }
    var init, c := body[..|body| - 1], body[|body| - 1];
    assert body == init + [c];
    ScanSnoc(init, c);
    var before := ScanParses(init);
    alts := ParsesMore(init, ScanAll(init), before, c);
  }

  /** What has been read so far, and one more character. */
  lemma ParsesMore(init: string, st: Scan, before: seq<seq<Lit>>, c: char) returns (alts: seq<seq<Lit>>)
    requires st.Reading? && st.sets != [] && ScanNext(st, c).Reading?
    requires AltsOk(before) && Texts(before) == st.sets && init == Render(before) + if st.escaped then "\\" else ""
    ensures AltsOk(alts) && Texts(alts) == ScanNext(st, c).sets
    ensures init + [c] == Render(alts) + if ScanNext(st, c).escaped then "\\" else ""
  {
    if !st.escaped && c == '|' {
      alts := WithAlt(before);
    } else if !st.escaped && c == '\\' {
      alts := before;
      assert Render(alts) + "" == Render(alts);
    } else {
      alts := WithChar(before, init, st.escaped, c);
    }
  }

  /** A character that stands for itself, or an escaped one, goes to the last alternative. */
  lemma WithChar(before: seq<seq<Lit>>, init: string, escaped: bool, c: char) returns (alts: seq<seq<Lit>>)
    requires AltsOk(before) && init == Render(before) + (if escaped then "\\" else "")
    requires LitOk(if escaped then Escaped(c) else Plain(c))
    ensures AltsOk(alts) && Texts(alts) == Extend(Texts(before), [c]) && Render(alts) == init + [c]
  {
    var l := if escaped then Escaped(c) else Plain(c);
    alts := WithLit(before, l);
    RenderWithLit(before, l);
    if escaped {
      Assoc(Render(before), "\\", [c]);
    } else {
      assert Render(before) + "" == Render(before);
    }
  }

  lemma WithAlt(before: seq<seq<Lit>>) returns (alts: seq<seq<Lit>>)
    requires AltsOk(before)
    ensures AltsOk(alts) && Texts(alts) == Texts(before) + [""] && Render(alts) == Render(before) + "" + "|" + ""
  {
    alts := before + [[]];
    assert alts[..|before|] == before;
    assert Render(before) + "" == Render(before);
  }

  function WithLit(alts: seq<seq<Lit>>, l: Lit): seq<seq<Lit>>
    requires alts != []
  {
    alts[|alts| - 1 := alts[|alts| - 1] + [l]]
  }

  lemma RenderWithLit(alts: seq<seq<Lit>>, l: Lit)
    requires AltsOk(alts) && LitOk(l)
    ensures AltsOk(WithLit(alts, l)) && Render(WithLit(alts, l)) == Render(alts) + RenderLit(l)
    ensures Texts(WithLit(alts, l)) == Extend(Texts(alts), [l.c])
  {
    var last := alts[|alts| - 1];
    assert (last + [l])[..|last|] == last;
    assert WithLit(alts, l)[..|alts| - 1] == alts[..|alts| - 1];
    assert Text(last + [l]) == Text(last) + [l.c];
  }

  // ---- escaping

  function EscapeWord(s: string): (w: seq<Lit>)
    ensures WordOk(w) && Text(w) == s
  {
    var w := seq(|s|, i requires 0 <= i < |s| => if IsMeta(s[i]) || s[i] == '\\' then Escaped(s[i]) else Plain(s[i]));
    assert forall i :: 0 <= i < |s| ==> LitOk(w[i]) && w[i].c == s[i];
    w
  }

  /** Texts written as a pattern: each escaped, joined by bars and anchored. */
  function EscapedPattern(ss: seq<string>): string {
    Wrap(Render(seq(|ss|, i requires 0 <= i < |ss| => EscapeWord(ss[i]))))
  }

  lemma {:induction false} NonEmptyAll(ss: seq<string>)
    requires forall i :: 0 <= i < |ss| ==> ss[i] != ""
    ensures NonEmpty(ss) == ss
  {
    if ss != [] {
      NonEmptyAll(ss[..|ss| - 1]);
      assert ss == ss[..|ss| - 1] + [ss[|ss| - 1]];
    }
  }

  lemma {:induction false} NonEmptyMembers(ss: seq<string>, s: string)
    ensures s in NonEmpty(ss) <==> s in ss && s != ""
  {
    if ss != [] {
      NonEmptyMembers(ss[..|ss| - 1], s);
      assert ss == ss[..|ss| - 1] + [ss[|ss| - 1]];
    }
  }

  /** findSetMatches gives back any list of non-empty texts from its escaped pattern. */
  method FindEscaped(ss: seq<string>) returns (matches: seq<string>)
    requires ss != [] && forall i :: 0 <= i < |ss| ==> ss[i] != ""
    ensures matches == ss
  {
    ghost var alts := seq(|ss|, i requires 0 <= i < |ss| => EscapeWord(ss[i]));
    ScanRender(alts);
    assert Texts(alts) == ss;
    NonEmptyAll(ss);
    matches := FindSetMatches(EscapedPattern(ss));
  }
}
