/** Dropping the results that depend on a rule that was itself reported. */
module Trim {
  import opened Sequences
  import opened Results

  function CodesOf(results: seq<Result>): set<string> {
    set r | r in results && r.Get(CODE).Text? :: r.Get(CODE).text
  }

  /** The results that count as reported. */
  function Reporting(o: Outcome): seq<Result> {
    o.failures + o.warnings + o.skipped
  }

  function Reported(os: seq<Outcome>): set<string> {
    set o, code | o in os && code in CodesOf(Reporting(o)) :: code
  }

  function Unreported(dependencies: seq<string>, reported: set<string>): seq<string> {
    Filter(dependencies, d => d !in reported)
  }

  /** A result without a list of dependencies stays; otherwise there is one copy of it for every
      dependency that was not reported. */
  function Copies(r: Result, reported: set<string>): seq<Result> {
    match r.Get(DEPENDS_ON)
    case Texts(dependencies) => seq(|Unreported(dependencies, reported)|, _ => r)
    case _ => [r]
  }

  function TrimmedList(results: seq<Result>, reported: set<string>): seq<Result> {
    if results == [] then [] else Copies(results[0], reported) + TrimmedList(results[1..], reported)
  }

  function TrimmedOutcome(o: Outcome, reported: set<string>): Outcome {
    o.(failures := TrimmedList(o.failures, reported), warnings := TrimmedList(o.warnings, reported),
       skipped := TrimmedList(o.skipped, reported), successes := TrimmedList(o.successes, reported))
  }

  function Trimmed(os: seq<Outcome>): seq<Outcome> {
    seq(|os|, i requires 0 <= i < |os| => TrimmedOutcome(os[i], Reported(os)))
  }

  lemma {:induction false} TrimmedListOfConcat(a: seq<Result>, b: seq<Result>, reported: set<string>)
    ensures TrimmedList(a + b, reported) == TrimmedList(a, reported) + TrimmedList(b, reported)
  {
    if a == [] {
      Empty(b);
    } else {
      ConcatTail(a, b);
      TrimmedListOfConcat(a[1..], b, reported);
      Assoc(Copies(a[0], reported), TrimmedList(a[1..], reported), TrimmedList(b, reported));
    }
  }

  lemma TrimmedListOfOneMore(results: seq<Result>, i: nat, reported: set<string>)
    requires i < |results|
    ensures TrimmedList(results[..i + 1], reported) == TrimmedList(results[..i], reported) + Copies(results[i], reported)
  {
    assert results[..i + 1] == results[..i] + [results[i]];
    TrimmedListOfConcat(results[..i], [results[i]], reported);
    assert [results[i]][1..] == [];
    Empty(Copies(results[i], reported));
  }

  method TrimOutput(what: seq<Result>, reported: set<string>) returns (trimmed: seq<Result>)
    ensures trimmed == TrimmedList(what, reported)
  {
    trimmed := [];
    for i := 0 to |what|
      invariant trimmed == TrimmedList(what[..i], reported)
    {
      var result := what[i];
      TrimmedListOfOneMore(what, i, reported);
      match result.Get(DEPENDS_ON) {
        case Texts(dependency) =>
          ghost var before := trimmed;
          for j := 0 to |dependency|
            invariant trimmed == before + seq(|Unreported(dependency[..j], reported)|, _ => result)
          {
            FilterOfOneMore(dependency, j, d => d !in reported);
            if dependency[j] !in reported {
              trimmed := trimmed + [result];
            }
          }
          assert dependency[..|dependency|] == dependency;
        case _ =>
          trimmed := trimmed + [result];
      }
    }
    assert what[..|what|] == what;
  }

  method CollectReported(results: seq<Result>, reported: set<string>) returns (reported': set<string>)
    ensures reported' == reported + CodesOf(results)
  {
    reported' := reported;
    for i := 0 to |results|
      invariant reported' == reported + CodesOf(results[..i])
    {
      assert results[..i + 1] == results[..i] + [results[i]];
      var code := results[i].Get(CODE);
      if code.Text? {
        reported' := reported' + {code.text};
      }
      assert CodesOf(results[..i + 1]) == CodesOf(results[..i]) + (if code.Text? then {code.text} else {});
    }
    assert results[..|results|] == results;
  }

  method TrimResults(results: array<Outcome>)
    modifies results
    ensures results[..] == Trimmed(old(results[..]))
  {
    ghost var os := results[..];
    var reported := {};
    for i := 0 to results.Length
      invariant results[..] == os
      invariant reported == Reported(os[..i])
    {
      var checks := results[i];
      reported := CollectReported(checks.failures, reported);
      reported := CollectReported(checks.warnings, reported);
      reported := CollectReported(checks.skipped, reported);
      ReportedOfOneMore(os, i);
    }
    assert os[..|os|] == os;
    for i := 0 to results.Length
      invariant forall j | 0 <= j < i :: results[j] == TrimmedOutcome(os[j], reported)
      invariant forall j | i <= j < results.Length :: results[j] == os[j]
    {
      var checks := results[i];
      var failures := TrimOutput(checks.failures, reported);
      results[i] := results[i].(failures := failures);
      var warnings := TrimOutput(checks.warnings, reported);
      results[i] := results[i].(warnings := warnings);
      var skipped := TrimOutput(checks.skipped, reported);
      results[i] := results[i].(skipped := skipped);
      var successes := TrimOutput(checks.successes, reported);
      results[i] := results[i].(successes := successes);
    }
  }

  lemma ReportedOfOneMore(os: seq<Outcome>, i: nat)
    requires i < |os|
    ensures Reported(os[..i + 1])
            == Reported(os[..i]) + CodesOf(os[i].failures) + CodesOf(os[i].warnings) + CodesOf(os[i].skipped)
  {
    assert os[..i + 1] == os[..i] + [os[i]];
    assert CodesOf(Reporting(os[i])) == CodesOf(os[i].failures) + CodesOf(os[i].warnings) + CodesOf(os[i].skipped);
    assert os[i] in os[..i + 1];
  }

  // ----- how often a result survives -----

  function Times(n: nat, k: nat): nat {
    if n == 0 then 0 else k + Times(n - 1, k)
  }

  lemma {:induction false} TimesIsProduct(n: nat, k: nat)
    ensures Times(n, k) == n * k
  {
    if n > 0 {
      TimesIsProduct(n - 1, k);
    }
  }

  lemma {:induction false} CopiesAddUp(results: seq<Result>, reported: set<string>, r: Result)
    ensures multiset(TrimmedList(results, reported))[r] == Times(multiset(results)[r], |Copies(r, reported)|)
  {
    if results != [] {
      var x, rest := results[0], results[1..];
      CopiesAddUp(rest, reported, r);
      CopiesMultiplicity(x, reported, r);
      ConcatMultiplicity(Copies(x, reported), TrimmedList(rest, reported), r);
      HeadMultiplicity(results, r);
    }
  }

  /** Every result survives as often as it has unreported dependencies. */
  lemma TrimmedMultiplicity(results: seq<Result>, reported: set<string>, r: Result)
    ensures multiset(TrimmedList(results, reported))[r] == multiset(results)[r] * |Copies(r, reported)|
  {
    CopiesAddUp(results, reported, r);
    TimesIsProduct(multiset(results)[r], |Copies(r, reported)|);
  }

  lemma CopiesMultiplicity(x: Result, reported: set<string>, r: Result)
    ensures multiset(Copies(x, reported))[r] == if x == r then |Copies(x, reported)| else 0
  {
    match x.Get(DEPENDS_ON)
    case Texts(dependencies) => Repeated(x, |Unreported(dependencies, reported)|, r);
    case _ =>
  }

  lemma {:induction false} Repeated(x: Result, n: nat, r: Result)
    ensures multiset(seq(n, _ => x))[r] == if x == r then n else 0
  {
    if n > 0 {
      Repeated(x, n - 1, r);
      assert seq(n, _ => x) == seq(n - 1, _ => x) + [x];
    }
  }

  /** Whether there is anything the result does not have to wait for. */
  predicate Survives(r: Result, reported: set<string>) {
    match r.Get(DEPENDS_ON)
    case Texts(dependencies) => exists d :: d in dependencies && d !in reported
    case _ => true
  }

  lemma SurvivesIffCopies(r: Result, reported: set<string>)
    ensures Survives(r, reported) <==> Copies(r, reported) != []
  {
    match r.Get(DEPENDS_ON)
    case Texts(dependencies) =>
      FilterElements(dependencies, d => d !in reported);
      if Unreported(dependencies, reported) != [] {
        assert Unreported(dependencies, reported)[0] in Unreported(dependencies, reported);
      }
    case _ =>
  }

  lemma SurvivorsOfList(results: seq<Result>, reported: set<string>)
    ensures forall r :: r in TrimmedList(results, reported) <==> r in results && Survives(r, reported)
  {
    forall r ensures r in TrimmedList(results, reported) <==> r in results && Survives(r, reported) {
      TrimmedMultiplicity(results, reported, r);
      SurvivesIffCopies(r, reported);
      Product(multiset(results)[r], |Copies(r, reported)|);
      assert r in TrimmedList(results, reported) <==> r in multiset(TrimmedList(results, reported));
      assert r in results <==> r in multiset(results);
    }
  }

  lemma Product(a: nat, b: nat)
    ensures a * b > 0 <==> a > 0 && b > 0
  {
  }

  predicate SingleDependency(r: Result) {
    r.Get(DEPENDS_ON).Texts? ==> |r.Get(DEPENDS_ON).texts| <= 1
  }

  /** With at most one dependency each, trimming is a filter. */
  lemma {:induction false} SingleDependenciesAreFiltered(results: seq<Result>, reported: set<string>)
    requires forall r | r in results :: SingleDependency(r)
    ensures TrimmedList(results, reported) == Filter(results, r => Survives(r, reported))
  {
    if results != [] {
      SingleDependenciesAreFiltered(results[1..], reported);
      var r := results[0];
      assert r in results;
      SingleIsThereOrNot(r, reported);
    }
  }

  lemma SingleIsThereOrNot(r: Result, reported: set<string>)
    requires SingleDependency(r)
    ensures Copies(r, reported) == if Survives(r, reported) then [r] else []
  {
    SurvivesIffCopies(r, reported);
    if r.Get(DEPENDS_ON).Texts? && r.Get(DEPENDS_ON).texts != [] {
      var dependencies := r.Get(DEPENDS_ON).texts;
      FilterOfOneMore(dependencies, 0, d => d !in reported);
      assert dependencies[..1] == dependencies && dependencies[..0] == [];
    }
  }

  // ----- trimming again -----

  ghost predicate ReportedResult(os: seq<Outcome>, r: Result) {
    r.Get(CODE).Text? && exists o :: o in os && r in Reporting(o)
  }

  lemma StillReported(os: seq<Outcome>, r: Result)
    ensures ReportedResult(Trimmed(os), r) <==> ReportedResult(os, r) && Survives(r, Reported(os))
  {
    forall i | 0 <= i < |os|
      ensures r in Reporting(Trimmed(os)[i]) <==> r in Reporting(os[i]) && Survives(r, Reported(os))
    {
      SurvivorsOfList(os[i].failures, Reported(os));
      SurvivorsOfList(os[i].warnings, Reported(os));
      SurvivorsOfList(os[i].skipped, Reported(os));
    }
    if ReportedResult(Trimmed(os), r) {
      var o' :| o' in Trimmed(os) && r in Reporting(o');
      var i :| 0 <= i < |os| && Trimmed(os)[i] == o';
      assert os[i] in os;
    }
    if ReportedResult(os, r) && Survives(r, Reported(os)) {
      var o :| o in os && r in Reporting(o);
      var i :| 0 <= i < |os| && os[i] == o;
      assert Trimmed(os)[i] in Trimmed(os);
    }
  }

  lemma LessIsReported(os: seq<Outcome>)
    ensures Reported(Trimmed(os)) <= Reported(os)
  {
    forall code | code in Reported(Trimmed(os)) ensures code in Reported(os) {
      var o' :| o' in Trimmed(os) && code in CodesOf(Reporting(o'));
      var r :| r in Reporting(o') && r.Get(CODE) == Text(code);
      assert ReportedResult(Trimmed(os), r);
      StillReported(os, r);
      var o :| o in os && r in Reporting(o);
      assert code in CodesOf(Reporting(o));
    }
  }

  /** What survives trimming survives it again. */
  lemma SecondPassRemovesNothing(os: seq<Outcome>, r: Result)
    requires Survives(r, Reported(os))
    ensures Survives(r, Reported(Trimmed(os)))
  {
    LessIsReported(os);
  }

  lemma {:induction false} FilterAll<T>(s: seq<T>, keep: T -> bool)
    requires forall x | x in s :: keep(x)
    ensures Filter(s, keep) == s
  {
    if s != [] {
      assert s[0] in s;
      FilterAll(s[1..], keep);
    }
  }

  lemma TrimmedListTwice(os: seq<Outcome>, results: seq<Result>)
    requires forall r | r in results :: SingleDependency(r)
    ensures TrimmedList(TrimmedList(results, Reported(os)), Reported(Trimmed(os))) == TrimmedList(results, Reported(os))
  {
    var once := TrimmedList(results, Reported(os));
    SurvivorsOfList(results, Reported(os));
    LessIsReported(os);
    SingleDependenciesAreFiltered(once, Reported(Trimmed(os)));
    FilterAll(once, r => Survives(r, Reported(Trimmed(os))));
  }

  /** With at most one dependency each, trimming twice is trimming once. */
  lemma TrimmingIsIdempotent(os: seq<Outcome>)
    requires forall o | o in os :: forall r | r in Reporting(o) + o.successes :: SingleDependency(r)
    ensures Trimmed(Trimmed(os)) == Trimmed(os)
  {
    forall i | 0 <= i < |os| ensures Trimmed(Trimmed(os))[i] == Trimmed(os)[i] {
      assert os[i] in os;
      assert forall r | r in os[i].failures || r in os[i].warnings || r in os[i].skipped :: r in Reporting(os[i]);
      assert forall r | r in Reporting(os[i]) || r in os[i].successes :: r in Reporting(os[i]) + os[i].successes;
      TrimmedListTwice(os, os[i].failures);
      TrimmedListTwice(os, os[i].warnings);
      TrimmedListTwice(os, os[i].skipped);
      TrimmedListTwice(os, os[i].successes);
    }
  }

  // ----- nothing goes silent -----

  /** Trimming leaves nothing with a code if and only if every such result has a list of
      dependencies and all of those were reported. */
  lemma SilencedIff(os: seq<Outcome>)
    ensures (forall r :: !ReportedResult(Trimmed(os), r))
            <==> forall r | ReportedResult(os, r) :: !Survives(r, Reported(os))
  {
    forall r ensures ReportedResult(Trimmed(os), r) <==> ReportedResult(os, r) && Survives(r, Reported(os)) {
      StillReported(os, r);
    }
  }

  /** Dependency lists are not empty, and follow the ranks of the codes downwards. */
  ghost predicate Acyclic(os: seq<Outcome>, rank: string -> nat) {
    forall r | ReportedResult(os, r) && r.Get(DEPENDS_ON).Texts? ::
      var dependencies := r.Get(DEPENDS_ON).texts;
      dependencies != [] && forall d | d in dependencies && d in Reported(os) :: rank(d) < rank(r.Get(CODE).text)
  }

  lemma {:induction false} Descend(os: seq<Outcome>, rank: string -> nat, r: Result) returns (survivor: Result)
    requires Acyclic(os, rank) && ReportedResult(os, r)
    ensures ReportedResult(os, survivor) && Survives(survivor, Reported(os))
    decreases rank(r.Get(CODE).text)
  {
    if Survives(r, Reported(os)) {
      survivor := r;
    } else {
      var d := r.Get(DEPENDS_ON).texts[0];
      assert d in r.Get(DEPENDS_ON).texts;
      assert d in Reported(os);
      var o :| o in os && d in CodesOf(Reporting(o));
      var r' :| r' in Reporting(o) && r'.Get(CODE) == Text(d);
      survivor := Descend(os, rank, r');
    }
  }

  /** If dependencies are not circular, trimming never silences everything. */
  lemma AcyclicNeverSilenced(os: seq<Outcome>, rank: string -> nat, r: Result)
    requires Acyclic(os, rank) && ReportedResult(os, r)
    ensures exists survivor :: ReportedResult(Trimmed(os), survivor)
  {
    var survivor := Descend(os, rank, r);
    StillReported(os, survivor);
  }

  function FailureOn(code: string, dependency: string): Result {
    Result("", map[CODE := Text(code), DEPENDS_ON := Texts([dependency])])
  }

  /** Two failures that depend on each other are both dropped. */
  lemma CircularDependenciesAreSilenced(a: string, b: string)
    ensures var o := Outcome("", [], [], [], [FailureOn(a, b), FailureOn(b, a)], []);
            forall r :: !ReportedResult(Trimmed([o]), r)
  {
    var o := Outcome("", [], [], [], [FailureOn(a, b), FailureOn(b, a)], []);
    SilencedIff([o]);
    assert Reporting(o) == o.failures;
    assert o.failures[0] in o.failures && o.failures[1] in o.failures;
    assert {a, b} <= CodesOf(Reporting(o));
    assert o in [o];
  }


  // ----- what is trimmed, and by what -----

  ghost predicate HasCode(results: seq<Result>, code: string) {
    exists r :: r in results && "code" in r.metadata && r.metadata["code"] == Text(code)
  }

  lemma InCodesOf(results: seq<Result>, code: string)
    ensures code in CodesOf(results) <==> HasCode(results, code)
  {
  }

  /** A code counts as reported if a failure, a warning or a skipped result of any outcome has it. */
  lemma ReportedIff(os: seq<Outcome>, code: string)
    ensures code in Reported(os)
            <==> exists o :: o in os && (HasCode(o.failures, code) || HasCode(o.warnings, code) || HasCode(o.skipped, code))
  {
    forall o: Outcome
      ensures code in CodesOf(Reporting(o)) <==> HasCode(o.failures, code) || HasCode(o.warnings, code) || HasCode(o.skipped, code)
    {
      InCodesOf(Reporting(o), code);
    }
  }

  /** How many of the dependencies were not reported. */
  function UnreportedCount(dependencies: seq<string>, reported: set<string>): nat {
    if dependencies == [] then 0
    else (if dependencies[0] in reported then 0 else 1) + UnreportedCount(dependencies[1..], reported)
  }

  lemma {:induction false} UnreportedAreCounted(dependencies: seq<string>, reported: set<string>)
    ensures |Unreported(dependencies, reported)| == UnreportedCount(dependencies, reported)
  {
    if dependencies != [] {
      UnreportedAreCounted(dependencies[1..], reported);
    }
  }

  /** In each list of each outcome but the exceptions, the result is there as often as before for
      each of its dependencies that was not reported, or as often as before if it has no list. */
  ghost predicate TrimmedFrom(after: seq<Result>, before: seq<Result>, reported: set<string>) {
    forall r ::
      multiset(after)[r] == multiset(before)[r] * match r.Get("depends_on")
                                                  case Texts(dependencies) => UnreportedCount(dependencies, reported)
                                                  case _ => 1
  }

  lemma ListIsTrimmedFrom(before: seq<Result>, reported: set<string>)
    ensures TrimmedFrom(TrimmedList(before, reported), before, reported)
  {
    forall r: Result
      ensures multiset(TrimmedList(before, reported))[r]
              == multiset(before)[r] * match r.Get("depends_on")
                                       case Texts(dependencies) => UnreportedCount(dependencies, reported)
                                       case _ => 1
    {
      TrimmedMultiplicity(before, reported, r);
      match r.Get("depends_on")
      case Texts(dependencies) => UnreportedAreCounted(dependencies, reported);
      case _ =>
    }
  }

  lemma AllListsAreTrimmed(os: seq<Outcome>, i: nat)
    requires i < |os|
    ensures |Trimmed(os)| == |os|
    ensures var o, o' := os[i], Trimmed(os)[i];
            && TrimmedFrom(o'.failures, o.failures, Reported(os)) && TrimmedFrom(o'.warnings, o.warnings, Reported(os))
            && TrimmedFrom(o'.skipped, o.skipped, Reported(os)) && TrimmedFrom(o'.successes, o.successes, Reported(os))
            && o'.exceptions == o.exceptions && o'.namespace == o.namespace
  {
    ListIsTrimmedFrom(os[i].failures, Reported(os));
    ListIsTrimmedFrom(os[i].warnings, Reported(os));
    ListIsTrimmedFrom(os[i].skipped, Reported(os));
    ListIsTrimmedFrom(os[i].successes, Reported(os));
  }
}
