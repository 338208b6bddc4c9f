// FastRegexMatcher of pkg/inverted/labels/regexp.go: literal checks made before the regular expression is run.

module Prefilter {

  /** A part of a parsed concatenation. A part that is neither a literal nor an anchor accepts any
      stretch of any subject it likes. */
  datatype Node = Literal(text: string, fold: bool) | BeginText | EndText | Other(accepts: (string, int, int) -> bool)

  datatype Regexp = Concat(sub: seq<Node>) | Single(node: Node)

  /** A literal that ignores case matches any text with the same canonical characters; `canon` picks one
      character of each set that simple case folding identifies. */
  type Canon = char -> char

  predicate Spells(canon: Canon, text: string, fold: bool, s: string) {
    if fold then |s| == |text| && forall i :: 0 <= i < |s| ==> canon(s[i]) == canon(text[i]) else s == text
  }

  /** The node matches the stretch s[i..j] of the subject. */
  predicate MatchNode(canon: Canon, n: Node, s: string, i: int, j: int)
    requires 0 <= i <= j <= |s|
  {
    match n
    case Literal(text, fold) => Spells(canon, text, fold, s[i..j])
    case BeginText => i == j == 0
    case EndText => i == j == |s|
    case Other(accepts) => accepts(s, i, j)
  }

  ghost predicate MatchSeq(canon: Canon, nodes: seq<Node>, s: string, i: int, j: int)
    requires 0 <= i <= j <= |s|
  {
    if nodes == [] then i == j
    else exists k :: i <= k <= j && MatchNode(canon, nodes[0], s, i, k) && MatchSeq(canon, nodes[1..], s, k, j)
  }

  /** What the anchored expression ^(?:v)$ accepts. */
  ghost predicate Accepts(canon: Canon, r: Regexp, s: string) {
    match r
    case Concat(sub) => MatchSeq(canon, sub, s, 0, |s|)
    case Single(node) => MatchNode(canon, node, s, 0, |s|)
  }

  /** The text of a literal, "" for any other node. */
  function TextOf(n: Node): string {
    if n.Literal? then n.text else ""
  }

  /** The parts between a leading and a trailing text anchor. */
  function Inner(sub: seq<Node>): (inner: seq<Node>) {
    var rest := if sub != [] && sub[0].BeginText? then sub[1..] else sub;
    if rest != [] && rest[|rest| - 1].EndText? then rest[..|rest| - 1] else rest
  }

  /** The literal at i is the first one strictly inside. */
  predicate IsFirstInside(inner: seq<Node>, i: int) {
    0 < i < |inner| - 1 && inner[i].Literal? && forall j :: 0 < j < i ==> !inner[j].Literal?
  }

  /** The text is that of the first literal strictly inside, if there is one. */
  ghost predicate FirstInside(inner: seq<Node>, text: string) {
    || (text == "" && forall i :: 0 < i < |inner| - 1 ==> !inner[i].Literal?)
    || exists i :: IsFirstInside(inner, i) && text == inner[i].text
  }

  method OptimizeConcatRegex(r: Regexp) returns (prefix: string, suffix: string, contains: string)
    requires r.Concat?
    ensures var inner := Inner(r.sub);
            if inner == [] then prefix == suffix == contains == ""
            else prefix == TextOf(inner[0]) && suffix == TextOf(inner[|inner| - 1]) && FirstInside(inner, contains)
  {
    prefix, suffix, contains := "", "", "";
    var sub := r.sub;
    if |sub| > 0 && sub[0].BeginText? {
      sub := sub[1..];
    }
    if |sub| > 0 && sub[|sub| - 1].EndText? {
      sub := sub[..|sub| - 1];
    }
    if |sub| == 0 {
      return;
    }
    if sub[0].Literal? {
      prefix := sub[0].text;
    }
    var last := |sub| - 1;
    if sub[last].Literal? {
      suffix := sub[last].text;
    }
    contains := LiteralInside(sub);
  }

  /** The loop of optimizeConcatRegex. */
  method LiteralInside(sub: seq<Node>) returns (contains: string)
    requires sub != []
    ensures FirstInside(sub, contains)
  {
    var i := 1;
    while i < |sub| - 1
      invariant 1 <= i && forall j :: 0 < j < i && j < |sub| - 1 ==> !sub[j].Literal?
    {
      if sub[i].Literal? {
        assert IsFirstInside(sub, i);
        return sub[i].text;
      }
      i := i + 1;
    }
    contains := "";
  }

  datatype FastRegexMatcher = FastRegexMatcher(re: Regexp, prefix: string, suffix: string, contains: string)

  /** The matcher that the constructor makes. */
  ghost predicate MadeFor(m: FastRegexMatcher) {
    match m.re
    case Single(_) => m.prefix == m.suffix == m.contains == ""
    case Concat(sub) =>
      var inner := Inner(sub);
      if inner == [] then m.prefix == m.suffix == m.contains == ""
      else m.prefix == TextOf(inner[0]) && m.suffix == TextOf(inner[|inner| - 1]) && FirstInside(inner, m.contains)
  }

  method NewFastRegexMatcher(parsed: Regexp) returns (m: FastRegexMatcher)
    ensures MadeFor(m) && m.re == parsed
  {
    var prefix, suffix, contains := "", "", "";
    if parsed.Concat? {
      prefix, suffix, contains := OptimizeConcatRegex(parsed);
    }
    m := FastRegexMatcher(parsed, prefix, suffix, contains);
  }

  predicate HasPrefix(s: string, prefix: string) {
    prefix <= s
  }

  predicate HasSuffix(s: string, suffix: string) {
    |suffix| <= |s| && s[|s| - |suffix|..] == suffix
  }

  ghost predicate Contains(s: string, text: string) {
    exists i, j :: 0 <= i <= j <= |s| && s[i..j] == text
  }

  /** FastRegexMatcher.MatchString. */
  ghost predicate MatchString(canon: Canon, m: FastRegexMatcher, s: string) {
    && (m.prefix != "" ==> HasPrefix(s, m.prefix))
    && (m.suffix != "" ==> HasSuffix(s, m.suffix))
    && (m.contains != "" ==> Contains(s, m.contains))
    && Accepts(canon, m.re, s)
  }

  /** The checks change the answer on no subject. */
  ghost predicate Transparent(canon: Canon, m: FastRegexMatcher) {
    forall s :: MatchString(canon, m, s) <==> Accepts(canon, m.re, s)
  }

  /** The node is a literal that can be spelled otherwise: it ignores case, and some character of it has another case. */
  ghost predicate Loose(canon: Canon, n: Node) {
    n.Literal? && n.fold && exists i, c :: Respelling(canon, n.text, i, c)
  }

  ghost predicate Respelling(canon: Canon, text: string, i: int, c: char) {
    0 <= i < |text| && c != text[i] && canon(c) == canon(text[i])
  }

  /** None of the literals that the checks are taken from can be spelled otherwise. */
  ghost predicate Verbatim(canon: Canon, r: Regexp) {
    r.Concat? && Inner(r.sub) != [] ==>
      var inner := Inner(r.sub);
      && !Loose(canon, inner[0]) && !Loose(canon, inner[|inner| - 1])
      && forall i :: IsFirstInside(inner, i) ==> !Loose(canon, inner[i])
  }

  lemma SpelledVerbatim(canon: Canon, n: Node, s: string)
    requires n.Literal? && !Loose(canon, n) && Spells(canon, n.text, n.fold, s)
    ensures s == n.text
  {
    forall i | 0 <= i < |s| ensures |s| == |n.text| && s[i] == n.text[i] {
      assert n.fold ==> !Respelling(canon, n.text, i, s[i]);
    }
  }

  /** The stretch that a part takes in a match of the whole. */
  lemma {:induction false} MatchSplits(canon: Canon, nodes: seq<Node>, s: string, i: int, j: int, k: nat) returns (a: int, b: int)
    requires 0 <= i <= j <= |s| && MatchSeq(canon, nodes, s, i, j) && k < |nodes|
    ensures i <= a <= b <= j && MatchSeq(canon, nodes[..k], s, i, a) && MatchNode(canon, nodes[k], s, a, b)
    ensures MatchSeq(canon, nodes[k + 1..], s, b, j)
  {
    var m :| i <= m <= j && MatchNode(canon, nodes[0], s, i, m) && MatchSeq(canon, nodes[1..], s, m, j);
    if k == 0 {
      a, b := i, m;
    } else {
      a, b := MatchSplits(canon, nodes[1..], s, m, j, k - 1);
      assert nodes[..k][1..] == nodes[1..][..k - 1];
      assert nodes[1..][k - 1 + 1..] == nodes[k + 1..];
    }
  }

  /** Where a part of the concatenation matches: the first at the start, the last at the end. */
  lemma InnerSplits(canon: Canon, sub: seq<Node>, s: string, x: nat) returns (a: int, b: int)
    requires MatchSeq(canon, sub, s, 0, |s|) && x < |Inner(sub)|
    ensures 0 <= a <= b <= |s| && MatchNode(canon, Inner(sub)[x], s, a, b)
    ensures (x == 0 ==> a == 0) && (x == |Inner(sub)| - 1 ==> b == |s|)
  {
    var off := if sub[0].BeginText? then 1 else 0;
    var k := off + x;
    assert sub[k] == Inner(sub)[x];
    a, b := MatchSplits(canon, sub, s, 0, |s|, k);
    if x == 0 {
      assert sub[..k] == if off == 0 then [] else [sub[0]];
    }
    if x == |Inner(sub)| - 1 {
      var rest := sub[k + 1..];
      assert rest == [] || (|rest| == 1 && rest[0].EndText?);
    }
  }

  /** The checks never change the answer when the literals they use cannot be spelled otherwise. */
  lemma PrefilterSafe(canon: Canon, m: FastRegexMatcher, s: string)
    requires MadeFor(m) && Verbatim(canon, m.re)
    ensures MatchString(canon, m, s) <==> Accepts(canon, m.re, s)
  {
    if Accepts(canon, m.re, s) && m.re.Concat? && Inner(m.re.sub) != [] {
      var sub, inner := m.re.sub, Inner(m.re.sub);
      if m.prefix != "" {
        var a, b := InnerSplits(canon, sub, s, 0);
        SpelledVerbatim(canon, inner[0], s[a..b]);
      }
      if m.suffix != "" {
        var a, b := InnerSplits(canon, sub, s, |inner| - 1);
        SpelledVerbatim(canon, inner[|inner| - 1], s[a..b]);
      }
      if m.contains != "" {
        var i :| IsFirstInside(inner, i) && m.contains == inner[i].text;
        var a, b := InnerSplits(canon, sub, s, i);
        SpelledVerbatim(canon, inner[i], s[a..b]);
        assert s[a..b] == m.contains;
      }
    }
  }

  // ---- the converse

  /** The node takes the text wherever it stands. */
  ghost predicate Takes(canon: Canon, n: Node, text: string) {
    && (n.Literal? || n.Other?)
    && forall pre, post :: MatchNode(canon, n, pre + text + post, |pre|, |pre + text|)
  }

  lemma LiteralTakes(canon: Canon, n: Node, s: string)
    requires n.Literal? && Spells(canon, n.text, n.fold, s)
    ensures Takes(canon, n, s)
  {
    forall pre, post ensures MatchNode(canon, n, pre + s + post, |pre|, |pre + s|) {
      assert (pre + s + post)[|pre|..|pre + s|] == s;
    }
  }

  function Cat(texts: seq<string>): string {
    if texts == [] then "" else texts[0] + Cat(texts[1..])
  }

  /** Parts that take their texts anywhere match the texts one after the other. */
  lemma {:induction false} CatMatches(canon: Canon, nodes: seq<Node>, texts: seq<string>, pre: string, post: string)
    requires |nodes| == |texts| && forall k :: 0 <= k < |nodes| ==> Takes(canon, nodes[k], texts[k])
    ensures MatchSeq(canon, nodes, pre + Cat(texts) + post, |pre|, |pre + Cat(texts)|)
  {
    if nodes != [] {
      var rest := Cat(texts[1..]);
      var s := pre + Cat(texts) + post;
      assert s == pre + texts[0] + (rest + post) == (pre + texts[0]) + rest + post;
      assert Takes(canon, nodes[0], texts[0]);
      assert MatchNode(canon, nodes[0], s, |pre|, |pre + texts[0]|);
      CatMatches(canon, nodes[1..], texts[1..], pre + texts[0], post);
    }
  }

  /** The anchors set aside match at the ends. */
  lemma InnerAccepts(canon: Canon, sub: seq<Node>, s: string)
    requires MatchSeq(canon, Inner(sub), s, 0, |s|)
    ensures MatchSeq(canon, sub, s, 0, |s|)
  {
    var rest := if sub != [] && sub[0].BeginText? then sub[1..] else sub;
    if rest != Inner(sub) {
      assert rest == Inner(sub) + [rest[|rest| - 1]];
      MatchEnd(canon, Inner(sub), rest[|rest| - 1], s, 0);
    }
    if rest != sub {
      assert MatchNode(canon, sub[0], s, 0, 0);
    }
  }

  lemma {:induction false} MatchEnd(canon: Canon, nodes: seq<Node>, end: Node, s: string, i: int)
    requires 0 <= i <= |s| && MatchSeq(canon, nodes, s, i, |s|) && end.EndText?
    ensures MatchSeq(canon, nodes + [end], s, i, |s|)
  {
    if nodes == [] {
      assert MatchNode(canon, end, s, |s|, |s|) && MatchSeq(canon, (nodes + [end])[1..], s, |s|, |s|);
    } else {
      var k :| i <= k <= |s| && MatchNode(canon, nodes[0], s, i, k) && MatchSeq(canon, nodes[1..], s, k, |s|);
      MatchEnd(canon, nodes[1..], end, s, k);
      assert (nodes + [end])[1..] == nodes[1..] + [end];
    }
  }

  ghost function Respelled(canon: Canon, n: Node): (text: string)
    requires Loose(canon, n)
    ensures Spells(canon, n.text, n.fold, text) && text != n.text && |text| == |n.text|
  {
    var i, c :| Respelling(canon, n.text, i, c);
    n.text[i := c]
  }

  /** Every part takes some text wherever it stands; a literal always does. */
  ghost predicate Open(canon: Canon, n: Node) {
    exists text :: Takes(canon, n, text)
  }

  /** A text for every part, that of the part at x being the given one. */
  ghost function Texts(canon: Canon, inner: seq<Node>, x: nat, text: string): (texts: seq<string>)
    requires x < |inner| && Takes(canon, inner[x], text)
    requires forall k :: 0 <= k < |inner| ==> Open(canon, inner[k])
    ensures |texts| == |inner| && texts[x] == text
    ensures forall k :: 0 <= k < |inner| ==> Takes(canon, inner[k], texts[k])
  {
    seq(|inner|, k requires 0 <= k < |inner| => if k == x then text else SomeText(canon, inner[k]))
  }

  ghost function SomeText(canon: Canon, n: Node): (text: string)
    requires Open(canon, n)
    ensures Takes(canon, n, text)
  {
    var text :| Takes(canon, n, text);
    text
  }

  lemma {:induction false} CatEnds(texts: seq<string>)
    requires texts != []
    ensures var s, first, last := Cat(texts), texts[0], texts[|texts| - 1];
            |first| <= |s| && s[..|first|] == first && |last| <= |s| && s[|s| - |last|..] == last
  {
    if |texts| == 1 {
      assert Cat(texts) == texts[0] + "";
    } else {
      CatEnds(texts[1..]);
    }
  }

  lemma {:induction false} CatLone(texts: seq<string>, x: nat)
    requires x < |texts| && forall k :: 0 <= k < |texts| && k != x ==> texts[k] == ""
    ensures Cat(texts) == texts[x]
  {
    if x > 0 {
      CatLone(texts[1..], x - 1);
    } else if |texts| > 1 {
      CatLone(texts[1..], 0);
    }
  }

  /** The texts of the inner parts together make a subject that the expression accepts. */
  lemma TextsAccepted(canon: Canon, r: Regexp, texts: seq<string>)
    requires r.Concat? && |texts| == |Inner(r.sub)|
    requires forall k :: 0 <= k < |texts| ==> Takes(canon, Inner(r.sub)[k], texts[k])
    ensures Accepts(canon, r, Cat(texts))
  {
    CatMatches(canon, Inner(r.sub), texts, "", "");
    assert "" + Cat(texts) + "" == Cat(texts) == "" + Cat(texts);
    InnerAccepts(canon, r.sub, Cat(texts));
  }

  lemma PartsOpen(canon: Canon, inner: seq<Node>)
    requires forall k :: 0 <= k < |inner| ==> inner[k].Literal? || Open(canon, inner[k])
    ensures forall k :: 0 <= k < |inner| ==> Open(canon, inner[k])
  {
    forall k | 0 <= k < |inner| ensures Open(canon, inner[k]) {
      if inner[k].Literal? {
        LiteralTakes(canon, inner[k], inner[k].text);
      }
    }
  }

  /** A leading literal spelled otherwise is accepted and refused. */
  lemma LooseFirst(canon: Canon, m: FastRegexMatcher) returns (s: string)
    requires MadeFor(m) && m.re.Concat? && Inner(m.re.sub) != [] && Loose(canon, Inner(m.re.sub)[0])
    requires forall k :: 0 <= k < |Inner(m.re.sub)| ==> Open(canon, Inner(m.re.sub)[k])
    ensures Accepts(canon, m.re, s) && !MatchString(canon, m, s)
  {
    var inner := Inner(m.re.sub);
    var v := Respelled(canon, inner[0]);
    LiteralTakes(canon, inner[0], v);
    var texts := Texts(canon, inner, 0, v);
    TextsAccepted(canon, m.re, texts);
    CatEnds(texts);
    s := Cat(texts);
  }

  /** So is a trailing one. */
  lemma LooseLast(canon: Canon, m: FastRegexMatcher) returns (s: string)
    requires MadeFor(m) && m.re.Concat? && Inner(m.re.sub) != [] && Loose(canon, Inner(m.re.sub)[|Inner(m.re.sub)| - 1])
    requires forall k :: 0 <= k < |Inner(m.re.sub)| ==> Open(canon, Inner(m.re.sub)[k])
    ensures Accepts(canon, m.re, s) && !MatchString(canon, m, s)
  {
    var inner := Inner(m.re.sub);
    var x := |inner| - 1;
    var v := Respelled(canon, inner[x]);
    LiteralTakes(canon, inner[x], v);
    var texts := Texts(canon, inner, x, v);
    TextsAccepted(canon, m.re, texts);
    CatEnds(texts);
    s := Cat(texts);
  }

  /** The other parts all accept the empty text. */
  ghost predicate Lone(canon: Canon, inner: seq<Node>, i: int) {
    forall k :: 0 <= k < |inner| && k != i ==> Takes(canon, inner[k], "")
  }

  /** So is the inner one that the check takes, when it can stand alone. */
  lemma LooseInside(canon: Canon, m: FastRegexMatcher, i: int) returns (s: string)
    requires MadeFor(m) && m.re.Concat? && IsFirstInside(Inner(m.re.sub), i) && Loose(canon, Inner(m.re.sub)[i])
    requires Lone(canon, Inner(m.re.sub), i)
    ensures Accepts(canon, m.re, s) && !MatchString(canon, m, s)
  {
    var inner := Inner(m.re.sub);
    s := Respelled(canon, inner[i]);
    LiteralTakes(canon, inner[i], s);
    var texts := seq(|inner|, k requires 0 <= k < |inner| => if k == i then s else "");
    CatLone(texts, i);
    TextsAccepted(canon, m.re, texts);
    assert m.contains == inner[i].text;
    NoneInside(s, m.contains);
  }

  lemma NoneInside(s: string, text: string)
    requires |s| == |text| && s != text
    ensures !Contains(s, text)
  {
    assert s[0..|s|] == s;
  }

  /** When every part accepts some text wherever it stands, and the empty one around an inner literal that can be
      spelled otherwise, the checks change no answer iff none of the literals they use can be spelled otherwise. */
  lemma PrefilterExact(canon: Canon, m: FastRegexMatcher)
    requires MadeFor(m) && m.re.Concat?
    requires forall k :: 0 <= k < |Inner(m.re.sub)| ==> Inner(m.re.sub)[k].Literal? || Open(canon, Inner(m.re.sub)[k])
    requires forall i :: IsFirstInside(Inner(m.re.sub), i) && Loose(canon, Inner(m.re.sub)[i]) ==> Lone(canon, Inner(m.re.sub), i)
    ensures Transparent(canon, m) <==> Verbatim(canon, m.re)
  {
    var inner := Inner(m.re.sub);
    PartsOpen(canon, inner);
    if Verbatim(canon, m.re) {
      forall s ensures MatchString(canon, m, s) <==> Accepts(canon, m.re, s) {
        PrefilterSafe(canon, m, s);
      }
    } else if Loose(canon, inner[0]) {
      var s := LooseFirst(canon, m);
    } else if Loose(canon, inner[|inner| - 1]) {
      var s := LooseLast(canon, m);
    } else {
      var i :| IsFirstInside(inner, i) && Loose(canon, inner[i]);
      var s := LooseInside(canon, m, i);
    }
  }

  /** A leading literal that ignores case breaks the check whatever the other parts are: any other spelling of it
      that the rest accepts is accepted by the expression and refused by the matcher. */
  lemma FoldedPrefixBreaks(canon: Canon, m: FastRegexMatcher, spelled: string, tail: string)
    requires MadeFor(m) && m.re.Concat? && m.re.sub != [] && m.re.sub[0].Literal? && m.re.sub[0].fold
    requires m.re.sub[0].text != "" && Spells(canon, m.re.sub[0].text, true, spelled) && spelled != m.re.sub[0].text
    requires MatchSeq(canon, m.re.sub[1..], spelled + tail, |spelled|, |spelled + tail|)
    ensures Accepts(canon, m.re, spelled + tail) && !MatchString(canon, m, spelled + tail)
  {
    var s := spelled + tail;
    assert s[0..|spelled|] == spelled;
    assert MatchNode(canon, m.re.sub[0], s, 0, |spelled|);
    assert s[..|m.prefix|] == spelled;
  }

  /** The part .* accepts any stretch without a line feed. */
  function DotStar(): Node {
    Other((s: string, i: int, j: int) => forall k :: i <= k < j && 0 <= k < |s| ==> s[k] != '\n')
  }

  lemma DotStarTakes(canon: Canon)
    ensures Takes(canon, DotStar(), "")
  {
  }

  /** (?i)ab.* accepts "ab", but its literal is kept as "AB" and the matcher refuses. */
  lemma FoldedPrefixExample(canon: Canon, m: FastRegexMatcher)
    requires canon('a') == canon('A') && canon('b') == canon('B')
    requires MadeFor(m) && m.re == Concat([Literal("AB", true), DotStar()])
    ensures Accepts(canon, m.re, "ab") && !MatchString(canon, m, "ab")
  {
    var rest := m.re.sub[1..];
    assert "ab" + "" == "ab";
    assert MatchSeq(canon, rest[1..], "ab", 2, 2);
    assert MatchNode(canon, rest[0], "ab", 2, 2);
    FoldedPrefixBreaks(canon, m, "ab", "");
  }

  /** For a literal before, after or between .* the condition is that it does not ignore case or has no character
      with another case; (?i)ab.* and .*(?i)ab and .*(?i)ab.* fail it. */
  lemma DotStarExact(canon: Canon, m: FastRegexMatcher, lit: Node, before: bool, after: bool)
    requires MadeFor(m) && lit.Literal? && (before || after)
    requires m.re == Concat((if before then [DotStar()] else []) + [lit] + (if after then [DotStar()] else []))
    ensures Transparent(canon, m) <==> !Loose(canon, lit)
  {
    DotStarTakes(canon);
    var inner := Inner(m.re.sub);
    assert inner == m.re.sub;
    PrefilterExact(canon, m);
    assert before && after ==> IsFirstInside(inner, 1);
  }
}
