// pkg/inverted/labels: label sets, matchers, and Selector.Matches, the reference meaning of a query.

module Matchers {
  import opened Literals
  import opened MemIndex

  /** Labels.Get: the value of the first label of that name, "" when there is none. */
  function Get(ls: seq<Label>, name: string): string {
    if ls == [] then "" else if ls[0].name == name then ls[0].value else Get(ls[1..], name)
  }

  datatype MatchType = MatchEqual | MatchNotEqual | MatchRegexp | MatchNotRegexp

  datatype Matcher = Matcher(mtype: MatchType, name: string, value: string)

  /** The regular expressions of the standard library: whether a pattern compiles, and whether a
      subject matches the pattern from end to end. */
  datatype Engine = Engine(compiles: string -> bool, accepts: (string, string) -> bool)

  /** What is needed of an engine: an alternation of escaped literals means the set of its texts, and a
      dangling backslash does not compile. */
  ghost predicate Sane(e: Engine) {
    && (forall alts, s :: AltsOk(alts) ==> (e.accepts(Render(alts), s) <==> s in Texts(alts)))
    && (forall alts :: AltsOk(alts) ==> !e.compiles(Render(alts) + "\\"))
  }

  /** NewMatcher returns an error when the pattern of a regular expression does not compile. */
  predicate Constructible(e: Engine, m: Matcher) {
    m.mtype in {MatchRegexp, MatchNotRegexp} ==> e.compiles(m.value)
  }

  predicate Matches(e: Engine, m: Matcher, s: string) {
    match m.mtype
    case MatchEqual => s == m.value
    case MatchNotEqual => s != m.value
    case MatchRegexp => e.accepts(m.value, s)
    case MatchNotRegexp => !e.accepts(m.value, s)
  }

  function Inverse(m: Matcher): Matcher {
    match m.mtype
    case MatchEqual => Matcher(MatchNotEqual, m.name, m.value)
    case MatchNotEqual => Matcher(MatchEqual, m.name, m.value)
    case MatchRegexp => Matcher(MatchNotRegexp, m.name, m.value)
    case MatchNotRegexp => Matcher(MatchRegexp, m.name, m.value)
  }

  predicate IsNot(m: Matcher) {
    m.mtype in {MatchNotEqual, MatchNotRegexp}
  }

  /** Selector.Matches. */
  predicate Selects(e: Engine, ms: seq<Matcher>, ls: seq<Label>) {
    forall k :: 0 <= k < |ms| ==> Matches(e, ms[k], Get(ls, ms[k].name))
  }

  lemma InverseMatches(e: Engine, m: Matcher, s: string)
    ensures Matches(e, Inverse(m), s) == !Matches(e, m, s) && Inverse(Inverse(m)) == m && Inverse(m).name == m.name
    ensures Constructible(e, Inverse(m)) == Constructible(e, m) && IsNot(Inverse(m)) == !IsNot(m)
  {
  }

  /** When findSetMatches returns texts for a pattern that compiles, they are the non-empty strings it accepts. */
  lemma SetMatchesMean(e: Engine, v: string, s: string)
    requires Sane(e) && e.compiles(v) && ScanAll(v).Reading?
    ensures e.accepts(v, s) <==> s in ScanAll(v).sets
    ensures s in NonEmpty(ScanAll(v).sets) <==> e.accepts(v, s) && s != ""
  {
    var alts := ScanParses(v);
    assert !ScanAll(v).escaped by {
      assert !e.compiles(Render(alts) + "\\");
    }
    assert Render(alts) + "" == Render(alts);
    NonEmptyMembers(ScanAll(v).sets, s);
  }

  /** An engine that knows escaped literals, bars, and a trailing .* with its own meaning. */
  function StarEngine(): Engine {
    Engine((p: string) => !(ScanAll(p).Reading? && ScanAll(p).escaped),
           (p: string, s: string) =>
             if ScanAll(p).Reading? then s in ScanAll(p).sets
             else StarBody(p) && exists k :: 0 <= k <= |s| && s[..k] in ScanAll(p[..|p| - 2]).sets)
  }

  predicate StarBody(p: string) {
    |p| >= 2 && p[|p| - 2..] == ".*" && ScanAll(p[..|p| - 2]).Reading?
  }

  /** What is needed of an engine is met by one in which .* is no literal. */
  lemma StarEngineSane()
    ensures Sane(StarEngine())
  {
    forall alts, s | AltsOk(alts) ensures StarEngine().accepts(Render(alts), s) <==> s in Texts(alts) {
      ScanRender(alts);
    }
    forall alts | AltsOk(alts) ensures !StarEngine().compiles(Render(alts) + "\\") {
      ScanRender(alts);
      ScanSnoc(Render(alts), '\\');
    }
  }

  lemma StarEngineMeans()
    ensures StarEngine().compiles("web.*")
    ensures StarEngine().accepts("web.*", "web1") && !StarEngine().accepts("web.*", "db1")
  {
    StarOfWeb();
    assert "web1"[..3] == "web";
    assert "db1"[..3] == "db1" && "db1"[0] != "web"[0];
  }

  lemma StarOfWeb()
    ensures ScanAll("web.*").Failed? && StarBody("web.*")
    ensures "web.*"[..3] == "web" && ScanAll("web") == Reading(["web"], false)
  {
    ScanSnoc("", 'w');
    ScanSnoc("w", 'e');
    ScanSnoc("we", 'b');
    ScanSnoc("web", '.');
    ScanSnoc("web.", '*');
    assert "" + ['w'] == "w" && "w" + ['e'] == "we" && "we" + ['b'] == "web" && "web" + ['.'] == "web." && "web." + ['*'] == "web.*";
    assert "web.*"[..3] == "web" && "web.*"[3..] == ".*";
  }
}
