/**
 * The architecture rules run over an `AppArchitectureModel`. Each rule is a
 * test that loops over assemblies and stops at the first failed assertion,
 * so its outcome is a `Verdict`: it passes, fails with the assertion's
 * message, or throws.
 *
 * NetArchTest is outside the model. `Types.InAssembly(a).ShouldNot()
 * .HaveDependencyOnAny(F)` fails for the types of `a` whose recorded
 * dependencies meet `F`, and the failing type names are their full names in
 * declaration order. The test assembly is an input, because the rules
 * compare assemblies against it.
 */
module ArchRules {
  import opened Wrappers
  import opened Linq
  import opened Text
  import opened ArchModel

  /** The outcome of one rule: an `Assert` that fails ends it with its message, an exception with its own. */
  datatype Verdict = Pass | Fail(message: string) | Threw(message: string)

  /** NetArchTest's `TestResult`; a missing list of failing types reads as an empty one. */
  datatype TestResult = TestResult(isSuccessful: bool, failingTypeNames: seq<string>)

  const NoFailingTypesMessage: string := "Architecture rule failed but no failing types were returned."

  const ForbiddenInDomain: set<string> := {"Microsoft.EntityFrameworkCore", "Microsoft.AspNetCore", "HotChocolate", "MediatR"}
  const ForbiddenInApplication: set<string> := {"Microsoft.EntityFrameworkCore", "Microsoft.AspNetCore", "HotChocolate"}

  /** The failing type names one per line, or a fixed text when a failed result names none. */
  function FailureMessage(result: TestResult): string
  {
    if result.isSuccessful then ""
    else if |result.failingTypeNames| > 0 then Join(NewLine, result.failingTypeNames)
    else NoFailingTypesMessage
  }

  /** A success says nothing, and the failing names of a failure can be read back from its message. */
  lemma FailureMessageListsFailingTypes(result: TestResult)
    requires forall i :: 0 <= i < |result.failingTypeNames| ==> '\n' !in result.failingTypeNames[i]
    ensures result.isSuccessful ==> FailureMessage(result) == ""
    ensures !result.isSuccessful && result.failingTypeNames != [] ==>
      Split(FailureMessage(result), '\n') == result.failingTypeNames
    ensures !result.isSuccessful && result.failingTypeNames == [] ==> FailureMessage(result) == NoFailingTypesMessage
  {
    if !result.isSuccessful && result.failingTypeNames != [] {
      SplitJoin(result.failingTypeNames, '\n');
    }
  }

  // ---------------------------------------------------------------------
  // The first failing check of a loop
  // ---------------------------------------------------------------------

  /** The verdict of a loop that runs `check` on each element in order and stops at the first that does not pass. */
  function FirstFailure<T>(s: seq<T>, check: T -> Verdict): Verdict
  {
    if s == [] then Pass
    else if check(s[0]) != Pass then check(s[0])
    else FirstFailure(s[1..], check)
  }

  lemma {:induction false} FirstFailurePasses<T>(s: seq<T>, check: T -> Verdict)
    ensures FirstFailure(s, check) == Pass <==> forall i :: 0 <= i < |s| ==> check(s[i]) == Pass
  {
    if s != [] {
      FirstFailurePasses(s[1..], check);
      assert forall i :: 1 <= i < |s| ==> s[i] == s[1..][i - 1];
    }
  }

  /** A check passes on every element of a sequence exactly when the loop over it passes. */
  lemma FirstFailurePassesOnMembers<T>(s: seq<T>, check: T -> Verdict)
    ensures FirstFailure(s, check) == Pass <==> forall x :: x in s ==> check(x) == Pass
  {
    FirstFailurePasses(s, check);
  }

  lemma {:induction false} FirstFailureIsFirst<T>(s: seq<T>, check: T -> Verdict)
    ensures FirstFailure(s, check) != Pass ==>
      exists i :: 0 <= i < |s| && FirstFailure(s, check) == check(s[i]) && forall j :: 0 <= j < i ==> check(s[j]) == Pass
  {
    if s != [] && check(s[0]) == Pass {
      FirstFailureIsFirst(s[1..], check);
      if FirstFailure(s, check) != Pass {
        var i :| 0 <= i < |s[1..]| && FirstFailure(s[1..], check) == check(s[1..][i]) &&
          forall j :: 0 <= j < i ==> check(s[1..][j]) == Pass;
        assert forall j :: 1 <= j < i + 1 ==> s[j] == s[1..][j - 1];
        assert FirstFailure(s, check) == check(s[i + 1]);
      }
    }
  }

  /** The `foreach` of a rule: runs `check` on each element and stops at the first verdict that is not `Pass`. */
  method Scan<T>(s: seq<T>, check: T -> Verdict) returns (v: Verdict)
    ensures v == FirstFailure(s, check)
  {
    var i := 0;
    while i < |s|
      invariant 0 <= i <= |s|
      invariant FirstFailure(s, check) == FirstFailure(s[i..], check)
    {
      assert s[i..][1..] == s[i + 1..];
      var c := check(s[i]);
      if c != Pass {
        return c;
      }
      i := i + 1;
    }
    return Pass;
  }

  // ---------------------------------------------------------------------
  // Dependency checks
  // ---------------------------------------------------------------------

  predicate TypeDependsOnAny(t: TypeInfo, forbidden: set<string>)
  {
    t.deps * forbidden != {}
  }

  /** `Types.InAssembly(a).ShouldNot().HaveDependencyOnAny(forbidden).GetResult()`. */
  function DependencyResult(a: Assembly, forbidden: set<string>): (r: TestResult)
    ensures r.isSuccessful <==> forall t :: t in a.types ==> !TypeDependsOnAny(t, forbidden)
    ensures r.isSuccessful <==> r.failingTypeNames == []
    ensures forall n :: n in r.failingTypeNames <==> exists t :: t in a.types && TypeDependsOnAny(t, forbidden) && t.fullName == n
  {
    var p := (t: TypeInfo) => TypeDependsOnAny(t, forbidden);
    var f := (t: TypeInfo) => t.fullName;
    var failing := Select(Where(a.types, p), f);
    forall n ensures n in failing <==> exists t :: t in a.types && p(t) && f(t) == n {
      InSelectWhere(a.types, p, f, n);
    }
    assert Where(a.types, p) != [] ==> Where(a.types, p)[0] in Where(a.types, p);
    TestResult(failing == [], failing)
  }

  /** How the assertion message of a dependency rule starts. */
  datatype Caption = Plain | Arrow(target: string)

  function Heading(name: string, caption: Caption): string
  {
    match caption
    case Plain => name
    case Arrow(target) => name + " -> " + target
  }

  /** One assertion of a dependency rule: the assembly passes, or fails with its heading and the failing types. */
  function DependencyVerdict(a: Assembly, forbidden: set<string>, caption: Caption): (v: Verdict)
    ensures v == Pass <==> forall t :: t in a.types ==> !TypeDependsOnAny(t, forbidden)
    ensures v != Pass ==> v == Fail(Heading(a.name, caption) + NewLine + FailureMessage(DependencyResult(a, forbidden)))
  {
    var r := DependencyResult(a, forbidden);
    if r.isSuccessful then Pass else Fail(Heading(a.name, caption) + NewLine + FailureMessage(r))
  }

  /** The assemblies a dependency rule loops over, the names they must not depend on, and the message heading. */
  datatype DependencyCheck = DependencyCheck(subjects: seq<Assembly>, forbidden: set<string>, caption: Caption)

  function CheckOf(c: DependencyCheck): Assembly -> Verdict
  {
    (a: Assembly) => DependencyVerdict(a, c.forbidden, c.caption)
  }

  function NameSet(names: seq<string>): set<string>
  {
    set n | n in names
  }

  /** The layering and BuildingBlocks rules that are dependency checks. */
  datatype DependencyRule =
    | ApiShouldNotReferenceBuildingBlocksDomain
    | ApiShouldNotReferenceBuildingBlocksInfrastructure
    | ApiShouldNotReferenceDomain
    | ApiShouldNotReferenceInfrastructure
    | DomainShouldNotReferenceApi
    | DomainShouldNotReferenceApplication
    | DomainShouldNotReferenceInfrastructure
    | DomainShouldNotReferenceBuildingBlocksApi
    | DomainShouldNotReferenceBuildingBlocksApplication
    | DomainShouldNotReferenceBuildingBlocksInfrastructure
    | DomainShouldNotDependOnForbiddenLibraries
    | ApplicationShouldNotReferenceApiOrInfrastructure
    | ApplicationShouldNotDependOnForbiddenLibraries
    | ApplicationShouldNotReferenceBuildingBlocksApi
    | ApplicationShouldNotReferenceBuildingBlocksDomain
    | ApplicationShouldNotReferenceBuildingBlocksInfrastructure
    | InfrastructureShouldNotReferenceApi
    | InfrastructureShouldNotReferenceBuildingBlocksApi
    | InfrastructureShouldNotReferenceBuildingBlocksDomain
    | OnlyApisCanDependOnBuildingBlocksApi
    | OnlyInfrastructureCanDependOnBuildingBlocksInfrastructure
    | BuildingBlocksDomainMustNotDependOnOtherBuildingBlocks
    | BuildingBlocksApplicationCanDependOnlyOnBuildingBlocksDomain
    | BuildingBlocksInfrastructureCanDependOnlyOnBuildingBlocksDomainAndApplication
    | BuildingBlocksApiCanDependOnlyOnBuildingBlocksDomainAndApplication
    | ApiShouldNotDependOnEntityFrameworkCore
    | BuildingBlocksMustNotDependOnModulesStrict

  /** A rule whose subjects must not depend on any of a set of names. */
  function Against(subjects: seq<Assembly>, forbidden: set<string>): Option<DependencyCheck>
  {
    Some(DependencyCheck(subjects, forbidden, Plain))
  }

  /** A rule against one BuildingBlocks name, which returns early when that name is missing or blank. */
  function TowardsBuildingBlock(subjects: seq<Assembly>, target: Option<string>): Option<DependencyCheck>
  {
    if IsNullOrWhiteSpace(target) then None
    else Some(DependencyCheck(subjects, {target.value}, Arrow(target.value)))
  }

  /** A rule on one BuildingBlocks assembly, which returns early when it is missing or none of the names is present. */
  function WithinBuildingBlocks(subject: Option<Assembly>, names: seq<Option<string>>): Option<DependencyCheck>
  {
    if subject.None? then None
    else
      var forbidden := Somes(Where(names, (n: Option<string>) => !IsNullOrWhiteSpace(n)));
      if |forbidden| == 0 then None
      else Some(DependencyCheck([subject.value], NameSet(forbidden), Plain))
  }

  /** Solution assemblies outside a layer's list, without the test assembly and `.ArchTests` ones. */
  function OutsideLayer(m: AppArchitectureModel, layer: seq<Assembly>, testAssembly: Assembly): (r: seq<Assembly>)
    ensures forall a :: a in r <==> a in m.all && a !in layer && a != testAssembly && !EndsWith(a.name, ".ArchTests")
  {
    Where(Where(Except(m.all, layer), (a: Assembly) => a != testAssembly), (a: Assembly) => !EndsWith(a.name, ".ArchTests"))
  }

  /** The distinct solution assembly names that contain `.Modules.`, in order. */
  function ModuleLikeNames(m: AppArchitectureModel): (r: seq<string>)
    ensures forall n :: n in r <==> Contains(n, ".Modules.") && exists a :: a in m.all && a.name == n
  {
    var names := Select(m.all, (a: Assembly) => a.name);
    assert forall n :: n in names <==> exists a :: a in m.all && a.name == n by {
      forall n | n in names ensures exists a :: a in m.all && a.name == n {
        var k :| 0 <= k < |names| && names[k] == n;
        assert m.all[k] in m.all;
      }
      forall n | exists a :: a in m.all && a.name == n ensures n in names {
        var a :| a in m.all && a.name == n;
        var k :| 0 <= k < |m.all| && m.all[k] == a;
        assert names[k] == n;
      }
    }
    Distinct(Where(names, (n: string) => Contains(n, ".Modules.")))
  }

  /** What each dependency rule checks, or `None` where the rule returns before its loop. */
  function Plan(m: AppArchitectureModel, testAssembly: Assembly, rule: DependencyRule): Option<DependencyCheck>
  {
    match rule
    case ApiShouldNotReferenceBuildingBlocksDomain => TowardsBuildingBlock(m.apis, m.BuildingBlocksDomainName())
    case ApiShouldNotReferenceBuildingBlocksInfrastructure => TowardsBuildingBlock(m.apis, m.BuildingBlocksInfrastructureName())
    case ApiShouldNotReferenceDomain => Against(m.apis, m.DomainNames())
    case ApiShouldNotReferenceInfrastructure => Against(m.apis, m.InfrastructureNames())
    case DomainShouldNotReferenceApi => Against(m.domains, m.ApiNames())
    case DomainShouldNotReferenceApplication => Against(m.domains, m.ApplicationNames())
    case DomainShouldNotReferenceInfrastructure => Against(m.domains, m.InfrastructureNames())
    case DomainShouldNotReferenceBuildingBlocksApi => TowardsBuildingBlock(m.domains, m.BuildingBlocksApiName())
    case DomainShouldNotReferenceBuildingBlocksApplication => TowardsBuildingBlock(m.domains, m.BuildingBlocksApplicationName())
    case DomainShouldNotReferenceBuildingBlocksInfrastructure => TowardsBuildingBlock(m.domains, m.BuildingBlocksInfrastructureName())
    case DomainShouldNotDependOnForbiddenLibraries => Against(m.domains, ForbiddenInDomain)
    case ApplicationShouldNotReferenceApiOrInfrastructure => Against(m.applications, m.InfrastructureNames() + m.ApiNames())
    case ApplicationShouldNotDependOnForbiddenLibraries => Against(m.applications, ForbiddenInApplication)
    case ApplicationShouldNotReferenceBuildingBlocksApi => TowardsBuildingBlock(m.applications, m.BuildingBlocksApiName())
    case ApplicationShouldNotReferenceBuildingBlocksDomain => TowardsBuildingBlock(m.applications, m.BuildingBlocksDomainName())
    case ApplicationShouldNotReferenceBuildingBlocksInfrastructure =>
      TowardsBuildingBlock(m.applications, m.BuildingBlocksInfrastructureName())
    case InfrastructureShouldNotReferenceApi => Against(m.infrastructures, m.ApiNames() + m.ApiNames())
    case InfrastructureShouldNotReferenceBuildingBlocksApi => TowardsBuildingBlock(m.infrastructures, m.BuildingBlocksApiName())
    case InfrastructureShouldNotReferenceBuildingBlocksDomain => TowardsBuildingBlock(m.infrastructures, m.BuildingBlocksDomainName())
    case OnlyApisCanDependOnBuildingBlocksApi =>
      TowardsBuildingBlock(OutsideLayer(m, m.apis, testAssembly), m.BuildingBlocksApiName())
    case OnlyInfrastructureCanDependOnBuildingBlocksInfrastructure =>
      TowardsBuildingBlock(OutsideLayer(m, m.infrastructures, testAssembly), m.BuildingBlocksInfrastructureName())
    case BuildingBlocksDomainMustNotDependOnOtherBuildingBlocks =>
      WithinBuildingBlocks(m.buildingBlocksDomain,
        [m.BuildingBlocksApplicationName(), m.BuildingBlocksInfrastructureName(), m.BuildingBlocksApiName()])
    case BuildingBlocksApplicationCanDependOnlyOnBuildingBlocksDomain =>
      WithinBuildingBlocks(m.buildingBlocksApplication, [m.BuildingBlocksInfrastructureName(), m.BuildingBlocksApiName()])
    case BuildingBlocksInfrastructureCanDependOnlyOnBuildingBlocksDomainAndApplication =>
      WithinBuildingBlocks(m.buildingBlocksInfrastructure, [m.BuildingBlocksApiName()])
    case BuildingBlocksApiCanDependOnlyOnBuildingBlocksDomainAndApplication =>
      WithinBuildingBlocks(m.buildingBlocksApi, [m.BuildingBlocksInfrastructureName()])
    case ApiShouldNotDependOnEntityFrameworkCore => Against(m.apis, {"Microsoft.EntityFrameworkCore"})
    case BuildingBlocksMustNotDependOnModulesStrict =>
      var names := ModuleLikeNames(m);
      if |names| == 0 then None else Against(m.BuildingBlocksAll(), NameSet(names))
  }

  /** The verdict of a dependency rule. */
  function RuleVerdict(m: AppArchitectureModel, testAssembly: Assembly, rule: DependencyRule): Verdict
  {
    match Plan(m, testAssembly, rule)
    case None => Pass
    case Some(c) => FirstFailure(c.subjects, CheckOf(c))
  }

  /** Runs a dependency rule: the early return, then the loop over its subjects. */
  method RunDependencyRule(m: AppArchitectureModel, testAssembly: Assembly, rule: DependencyRule) returns (v: Verdict)
    ensures v == RuleVerdict(m, testAssembly, rule)
  {
    var plan := Plan(m, testAssembly, rule);
    if plan.None? {
      return Pass;
    }
    v := Scan(plan.value.subjects, CheckOf(plan.value));
  }

  /** No type of a check's subjects depends on one of its forbidden names. */
  predicate Holds(c: DependencyCheck)
  {
    forall a, t :: a in c.subjects && t in a.types ==> !TypeDependsOnAny(t, c.forbidden)
  }

  /**
   * A dependency check passes exactly when it holds; otherwise it fails,
   * never throws, and its message is that of the first failing subject in
   * list order.
   */
  lemma CheckMeaning(c: DependencyCheck)
    ensures FirstFailure(c.subjects, CheckOf(c)) == Pass <==> Holds(c)
    ensures var v := FirstFailure(c.subjects, CheckOf(c));
      v != Pass ==>
        exists i :: 0 <= i < |c.subjects| && (forall j :: 0 <= j < i ==> CheckOf(c)(c.subjects[j]) == Pass) &&
          v == Fail(Heading(c.subjects[i].name, c.caption) + NewLine + FailureMessage(DependencyResult(c.subjects[i], c.forbidden)))
  {
    FirstFailurePassesOnMembers(c.subjects, CheckOf(c));
    FirstFailureIsFirst(c.subjects, CheckOf(c));
  }

  /** A dependency rule passes exactly when it returns early or its check holds, and it never throws. */
  lemma DependencyRuleMeaning(m: AppArchitectureModel, testAssembly: Assembly, rule: DependencyRule)
    ensures var plan := Plan(m, testAssembly, rule);
      RuleVerdict(m, testAssembly, rule) == Pass <==> plan.None? || Holds(plan.value)
    ensures !RuleVerdict(m, testAssembly, rule).Threw?
  {
    var plan := Plan(m, testAssembly, rule);
    if plan.Some? {
      CheckMeaning(plan.value);
    }
  }

  /** The rules against BuildingBlocks.Domain return early when its name is missing or blank. */
  lemma BlankBuildingBlocksDomainSkips(m: AppArchitectureModel, testAssembly: Assembly)
    requires IsNullOrWhiteSpace(m.BuildingBlocksDomainName())
    ensures Plan(m, testAssembly, ApiShouldNotReferenceBuildingBlocksDomain).None?
    ensures Plan(m, testAssembly, ApplicationShouldNotReferenceBuildingBlocksDomain).None?
    ensures Plan(m, testAssembly, InfrastructureShouldNotReferenceBuildingBlocksDomain).None?
  {
  }

  /** The rule against BuildingBlocks.Application returns early when its name is missing or blank. */
  lemma BlankBuildingBlocksApplicationSkips(m: AppArchitectureModel, testAssembly: Assembly)
    requires IsNullOrWhiteSpace(m.BuildingBlocksApplicationName())
    ensures Plan(m, testAssembly, DomainShouldNotReferenceBuildingBlocksApplication).None?
  {
  }

  /** A rule on a BuildingBlocks assembly returns early when every name it forbids is missing or blank. */
  lemma WithinBlankNamesSkips(subject: Option<Assembly>, names: seq<Option<string>>)
    requires forall i :: 0 <= i < |names| ==> IsNullOrWhiteSpace(names[i])
    ensures WithinBuildingBlocks(subject, names).None?
  {
    WhereNone(names, (n: Option<string>) => !IsNullOrWhiteSpace(n));
  }

  /** The rules against BuildingBlocks.Infrastructure return early when its name is missing or blank. */
  lemma BlankBuildingBlocksInfrastructureSkips(m: AppArchitectureModel, testAssembly: Assembly)
    requires IsNullOrWhiteSpace(m.BuildingBlocksInfrastructureName())
    ensures Plan(m, testAssembly, ApiShouldNotReferenceBuildingBlocksInfrastructure).None?
    ensures Plan(m, testAssembly, DomainShouldNotReferenceBuildingBlocksInfrastructure).None?
    ensures Plan(m, testAssembly, ApplicationShouldNotReferenceBuildingBlocksInfrastructure).None?
    ensures Plan(m, testAssembly, OnlyInfrastructureCanDependOnBuildingBlocksInfrastructure).None?
  {
  }

  /** BuildingBlocks.Api's own rule returns early when the BuildingBlocks.Infrastructure name is missing or blank. */
  lemma BuildingBlocksApiRuleSkips(m: AppArchitectureModel, testAssembly: Assembly)
    requires IsNullOrWhiteSpace(m.BuildingBlocksInfrastructureName())
    ensures Plan(m, testAssembly, BuildingBlocksApiCanDependOnlyOnBuildingBlocksDomainAndApplication).None?
  {
    WithinBlankNamesSkips(m.buildingBlocksApi, [m.BuildingBlocksInfrastructureName()]);
  }

  /** The rules against BuildingBlocks.Api return early when its name is missing or blank. */
  lemma BlankBuildingBlocksApiSkips(m: AppArchitectureModel, testAssembly: Assembly)
    requires IsNullOrWhiteSpace(m.BuildingBlocksApiName())
    ensures Plan(m, testAssembly, DomainShouldNotReferenceBuildingBlocksApi).None?
    ensures Plan(m, testAssembly, ApplicationShouldNotReferenceBuildingBlocksApi).None?
    ensures Plan(m, testAssembly, InfrastructureShouldNotReferenceBuildingBlocksApi).None?
    ensures Plan(m, testAssembly, OnlyApisCanDependOnBuildingBlocksApi).None?
  {
  }

  /** BuildingBlocks.Infrastructure's own rule returns early when the BuildingBlocks.Api name is missing or blank. */
  lemma BuildingBlocksInfrastructureRuleSkips(m: AppArchitectureModel, testAssembly: Assembly)
    requires IsNullOrWhiteSpace(m.BuildingBlocksApiName())
    ensures Plan(m, testAssembly, BuildingBlocksInfrastructureCanDependOnlyOnBuildingBlocksDomainAndApplication).None?
  {
    WithinBlankNamesSkips(m.buildingBlocksInfrastructure, [m.BuildingBlocksApiName()]);
  }

  /** BuildingBlocks.Domain's own rule returns early when every other BuildingBlocks name is missing or blank. */
  lemma BuildingBlocksDomainRuleSkips(m: AppArchitectureModel, testAssembly: Assembly)
    requires IsNullOrWhiteSpace(m.BuildingBlocksApplicationName()) && IsNullOrWhiteSpace(m.BuildingBlocksInfrastructureName())
    requires IsNullOrWhiteSpace(m.BuildingBlocksApiName())
    ensures Plan(m, testAssembly, BuildingBlocksDomainMustNotDependOnOtherBuildingBlocks).None?
  {
    WithinBlankNamesSkips(m.buildingBlocksDomain,
      [m.BuildingBlocksApplicationName(), m.BuildingBlocksInfrastructureName(), m.BuildingBlocksApiName()]);
  }

  /** BuildingBlocks.Application's own rule forbids only the Infrastructure and Api names, never the Domain one. */
  lemma BuildingBlocksApplicationRuleForbids(m: AppArchitectureModel, testAssembly: Assembly)
    requires m.buildingBlocksApplication.Some?
    ensures var plan := Plan(m, testAssembly, BuildingBlocksApplicationCanDependOnlyOnBuildingBlocksDomain);
      (plan.None? <==> IsNullOrWhiteSpace(m.BuildingBlocksInfrastructureName()) && IsNullOrWhiteSpace(m.BuildingBlocksApiName())) &&
      (plan.Some? ==>
        plan.value.subjects == [m.buildingBlocksApplication.value] &&
        forall n :: n in plan.value.forbidden <==>
          (Some(n) == m.BuildingBlocksInfrastructureName() || Some(n) == m.BuildingBlocksApiName()) && !IsBlank(n))
  {
    var names := [m.BuildingBlocksInfrastructureName(), m.BuildingBlocksApiName()];
    var keep := (n: Option<string>) => !IsNullOrWhiteSpace(n);
    var kept := Where(names, keep);
    if IsNullOrWhiteSpace(m.BuildingBlocksInfrastructureName()) && IsNullOrWhiteSpace(m.BuildingBlocksApiName()) {
      WhereNone(names, keep);
    } else {
      assert !IsNullOrWhiteSpace(m.BuildingBlocksInfrastructureName()) ==> m.BuildingBlocksInfrastructureName() in kept;
      assert !IsNullOrWhiteSpace(m.BuildingBlocksApiName()) ==> m.BuildingBlocksApiName() in kept;
    }
  }

  /** With a BuildingBlocks.Api name, "only Apis" checks every non-Api solution assembly except the tests against it. */
  lemma OnlyApisRuleSubjects(m: AppArchitectureModel, testAssembly: Assembly, a: Assembly)
    requires !IsNullOrWhiteSpace(m.BuildingBlocksApiName())
    ensures Plan(m, testAssembly, OnlyApisCanDependOnBuildingBlocksApi).Some?
    ensures var c := Plan(m, testAssembly, OnlyApisCanDependOnBuildingBlocksApi).value;
      c.forbidden == {m.BuildingBlocksApiName().value} &&
      (a in c.subjects <==> a in m.all && a !in m.apis && a != testAssembly && !EndsWith(a.name, ".ArchTests"))
  {
  }

  /**
   * With a BuildingBlocks.Infrastructure name, "only Infrastructure" checks
   * every non-Infrastructure solution assembly except the tests against it.
   */
  lemma OnlyInfrastructureRuleSubjects(m: AppArchitectureModel, testAssembly: Assembly, a: Assembly)
    requires !IsNullOrWhiteSpace(m.BuildingBlocksInfrastructureName())
    ensures Plan(m, testAssembly, OnlyInfrastructureCanDependOnBuildingBlocksInfrastructure).Some?
    ensures var c := Plan(m, testAssembly, OnlyInfrastructureCanDependOnBuildingBlocksInfrastructure).value;
      c.forbidden == {m.BuildingBlocksInfrastructureName().value} &&
      (a in c.subjects <==> a in m.all && a !in m.infrastructures && a != testAssembly && !EndsWith(a.name, ".ArchTests"))
  {
  }

  /** The strict rule forbids exactly the solution names with `.Modules.`, and passes when there is none. */
  lemma StrictRuleForbidsModuleNames(m: AppArchitectureModel, testAssembly: Assembly)
    ensures var plan := Plan(m, testAssembly, BuildingBlocksMustNotDependOnModulesStrict);
      (plan.None? <==> forall a :: a in m.all ==> !Contains(a.name, ".Modules.")) &&
      (plan.Some? ==>
        plan.value.subjects == m.BuildingBlocksAll() &&
        forall n :: n in plan.value.forbidden <==> Contains(n, ".Modules.") && exists a :: a in m.all && a.name == n)
  {
    var names := ModuleLikeNames(m);
    assert names != [] ==> names[0] in names;
  }

  // ---------------------------------------------------------------------
  // Module isolation
  // ---------------------------------------------------------------------

  /** `SelectMany` over the modules named differently from `name`: their present slots, module by module. */
  function OtherModuleSlots(modules: seq<ModuleGroup>, name: string): (r: seq<Assembly>)
    ensures forall a :: a in r <==> exists g :: g in modules && g.name != name && a in g.Assemblies()
  {
    if modules == [] then []
    else
      var rest := OtherModuleSlots(modules[1..], name);
      assert forall g :: g in modules <==> g == modules[0] || g in modules[1..];
      (if modules[0].name != name then modules[0].Assemblies() else []) + rest
  }

  /** The distinct names of the assemblies of every module named differently from `name`. */
  function OtherModuleAssemblyNames(modules: seq<ModuleGroup>, name: string): (r: seq<string>)
    ensures NoDuplicates(r)
    ensures forall n :: n in r <==> exists a :: a in OtherModuleSlots(modules, name) && a.name == n
  {
    var slots := OtherModuleSlots(modules, name);
    var fa := (a: Assembly) => a.name;
    forall n ensures n in Select(slots, fa) <==> exists a :: a in slots && a.name == n {
      InSelect(slots, fa, n);
    }
    Distinct(Select(slots, fa))
  }

  /** No type of an assembly of `g` depends on the name of an assembly of a module named differently. */
  predicate IsIsolated(m: AppArchitectureModel, g: ModuleGroup)
  {
    forall a, t :: a in g.Assemblies() && t in a.types ==>
      !TypeDependsOnAny(t, NameSet(OtherModuleAssemblyNames(m.modules, g.name)))
  }

  function IsolationCheck(m: AppArchitectureModel, g: ModuleGroup): Assembly -> Verdict
  {
    (a: Assembly) => DependencyVerdict(a, NameSet(OtherModuleAssemblyNames(m.modules, g.name)), Plain)
  }

  function ModuleIsolation(m: AppArchitectureModel): ModuleGroup -> Verdict
  {
    (g: ModuleGroup) => FirstFailure(g.Assemblies(), IsolationCheck(m, g))
  }

  /** `ModulesShouldBeIsolatedNoModuleDependsOnOtherModule`: for each module, for each of its assemblies. */
  method ModulesShouldBeIsolated(m: AppArchitectureModel) returns (v: Verdict)
    ensures v == FirstFailure(m.modules, ModuleIsolation(m))
  {
    var k := 0;
    while k < |m.modules|
      invariant 0 <= k <= |m.modules|
      invariant FirstFailure(m.modules, ModuleIsolation(m)) == FirstFailure(m.modules[k..], ModuleIsolation(m))
    {
      assert m.modules[k..][1..] == m.modules[k + 1..];
      var g := m.modules[k];
      var inner := Scan(g.Assemblies(), IsolationCheck(m, g));
      if inner != Pass {
        return inner;
      }
      k := k + 1;
    }
    return Pass;
  }

  /** One module's assertions all pass exactly when it is isolated. */
  lemma ModuleIsolationPasses(m: AppArchitectureModel, g: ModuleGroup)
    ensures ModuleIsolation(m)(g) == Pass <==> IsIsolated(m, g)
  {
    FirstFailurePassesOnMembers(g.Assemblies(), IsolationCheck(m, g));
  }

  /** Isolation passes exactly when every module is isolated from the others. */
  lemma IsolationMeaning(m: AppArchitectureModel)
    ensures FirstFailure(m.modules, ModuleIsolation(m)) == Pass <==> forall g :: g in m.modules ==> IsIsolated(m, g)
  {
    FirstFailurePassesOnMembers(m.modules, ModuleIsolation(m));
    forall g | g in m.modules ensures ModuleIsolation(m)(g) == Pass <==> IsIsolated(m, g) {
      ModuleIsolationPasses(m, g);
    }
  }

  lemma DependsOnOtherModule(m: AppArchitectureModel, g: ModuleGroup, a: Assembly, t: TypeInfo, b: Assembly)
    requires a in g.Assemblies() && t in a.types
    requires b in OtherModuleSlots(m.modules, g.name) && b.name in t.deps
    ensures !IsIsolated(m, g)
  {
    var others := OtherModuleAssemblyNames(m.modules, g.name);
    assert b.name in others;
    assert b.name in t.deps * NameSet(others);
    assert TypeDependsOnAny(t, NameSet(others));
  }

  /** An assembly of one module that depends on an assembly of a differently named module fails isolation. */
  lemma CrossModuleDependencyFails(m: AppArchitectureModel, g: ModuleGroup, h: ModuleGroup, a: Assembly, t: TypeInfo, b: Assembly)
    requires g in m.modules && h in m.modules && g.name != h.name
    requires a in g.Assemblies() && t in a.types
    requires b in h.Assemblies() && b.name in t.deps
    ensures FirstFailure(m.modules, ModuleIsolation(m)) != Pass
  {
    assert b in OtherModuleSlots(m.modules, g.name);
    DependsOnOtherModule(m, g, a, t, b);
    IsolationMeaning(m);
  }

  // ---------------------------------------------------------------------
  // Ports and adapters
  // ---------------------------------------------------------------------

  predicate IsRepositoryName(name: string)
  {
    EndsWith(name, "Repository")
  }

  predicate IsClientOrGatewayName(name: string)
  {
    EndsWith(name, "Client") || EndsWith(name, "Gateway")
  }

  /** `Types.InAssembly(a).That().HaveNameEndingWith(...).Should().BeInterfaces()`, for the repository or client names. */
  function PortShapeResult(a: Assembly, repositories: bool): (r: TestResult)
    ensures r.isSuccessful <==>
      forall t :: t in a.types && (if repositories then IsRepositoryName(t.name) else IsClientOrGatewayName(t.name)) ==> t.isInterface
  {
    var failing := Where(a.types, (t: TypeInfo) =>
      (if repositories then IsRepositoryName(t.name) else IsClientOrGatewayName(t.name)) && !t.isInterface);
    assert failing != [] ==> failing[0] in failing;
    TestResult(failing == [], Select(failing, (t: TypeInfo) => t.fullName))
  }

  /** Both assertions for one Domain or Application assembly, repositories first. */
  function PortVerdict(a: Assembly): (v: Verdict)
    ensures v == Pass <==> forall t :: t in a.types && (IsRepositoryName(t.name) || IsClientOrGatewayName(t.name)) ==> t.isInterface
    ensures !PortShapeResult(a, true).isSuccessful ==>
      v == Fail(a.name + " (Repository ports)" + NewLine + FailureMessage(PortShapeResult(a, true)))
    ensures PortShapeResult(a, true).isSuccessful && !PortShapeResult(a, false).isSuccessful ==>
      v == Fail(a.name + " (Client/Gateway ports)" + NewLine + FailureMessage(PortShapeResult(a, false)))
  {
    var repo := PortShapeResult(a, true);
    var client := PortShapeResult(a, false);
    if !repo.isSuccessful then Fail(a.name + " (Repository ports)" + NewLine + FailureMessage(repo))
    else if !client.isSuccessful then Fail(a.name + " (Client/Gateway ports)" + NewLine + FailureMessage(client))
    else Pass
  }

  /** `RepositoryAndClientPortsMustBeInterfacesInDomainOrApplication`. */
  method RepositoryAndClientPortsMustBeInterfaces(m: AppArchitectureModel) returns (v: Verdict)
    ensures v == FirstFailure(m.domains + m.applications, PortVerdict)
  {
    v := Scan(m.domains + m.applications, PortVerdict);
  }

  /** The ports rule passes exactly when every repository, client or gateway type of a Domain or Application assembly is an interface. */
  lemma PortsRuleMeaning(m: AppArchitectureModel)
    ensures FirstFailure(m.domains + m.applications, PortVerdict) == Pass <==>
      forall a, t :: a in m.domains + m.applications && t in a.types && (IsRepositoryName(t.name) || IsClientOrGatewayName(t.name))
        ==> t.isInterface
  {
    var s := m.domains + m.applications;
    FirstFailurePasses(s, PortVerdict);
    assert forall a :: a in s <==> exists i :: 0 <= i < |s| && s[i] == a;
  }

  /** `ToDictionary(t => t.Name)`: a table by name, or the first name met twice, at which it throws. */
  datatype Lookup = Table(byName: map<string, TypeInfo>) | DuplicateKey(key: string)

  function ToDictionary(ts: seq<TypeInfo>): (r: Lookup)
    ensures r.Table? <==> forall i, j :: 0 <= i < j < |ts| ==> ts[i].name != ts[j].name
    ensures r.Table? ==> forall n :: n in r.byName <==> exists t :: t in ts && t.name == n
    ensures r.Table? ==> forall n :: n in r.byName ==> r.byName[n] in ts && r.byName[n].name == n
    ensures r.DuplicateKey? ==> exists i, j :: 0 <= i < j < |ts| && ts[i].name == r.key && ts[j].name == r.key
    decreases |ts|
  {
    if ts == [] then Table(map[])
    else
      var init := ts[..|ts| - 1];
      var last := ts[|ts| - 1];
      assert ts == init + [last];
      match ToDictionary(init)
      case DuplicateKey(k) =>
        assert forall i :: 0 <= i < |init| ==> init[i] == ts[i];
        DuplicateKey(k)
      case Table(d) =>
        if last.name in d then
          var t :| t in init && t.name == last.name;
          var i :| 0 <= i < |init| && init[i] == t;
          assert ts[i].name == last.name;
          DuplicateKey(last.name)
        else
          TableSnoc(init, last, d, d[last.name := last]);
          Table(d[last.name := last])
  }

  /** A table over `init` extended by a type whose name is new is the table over `init + [last]`. */
  lemma TableSnoc(init: seq<TypeInfo>, last: TypeInfo, d: map<string, TypeInfo>, e: map<string, TypeInfo>)
    requires forall i, j :: 0 <= i < j < |init| ==> init[i].name != init[j].name
    requires forall n :: n in d <==> exists t :: t in init && t.name == n
    requires forall n :: n in d ==> d[n] in init && d[n].name == n
    requires last.name !in d && e == d[last.name := last]
    ensures var ts := init + [last];
      (forall i, j :: 0 <= i < j < |ts| ==> ts[i].name != ts[j].name) &&
      (forall n :: n in e <==> exists t :: t in ts && t.name == n) &&
      (forall n :: n in e ==> e[n] in ts && e[n].name == n)
  {
    var ts := init + [last];
    assert forall t :: t in ts <==> t in init || t == last;
    forall i, j | 0 <= i < j < |ts|
      ensures ts[i].name != ts[j].name
    {
      if j == |init| {
        assert ts[i] in init;
      } else {
        assert ts[i] == init[i] && ts[j] == init[j];
      }
    }
  }

  /** The interfaces of the Domain and Application assemblies, by simple name. */
  function PortTypes(m: AppArchitectureModel): Lookup
  {
    var asms := m.domains + m.applications;
    ToDictionary(Where(Flatten(Select(asms, (a: Assembly) => a.types)), (t: TypeInfo) => t.isInterface))
  }

  predicate IsAdapter(t: TypeInfo)
  {
    t.isClass && !t.isAbstract && (EndsWith(t.name, "Repository") || EndsWith(t.name, "Client") || EndsWith(t.name, "Gateway"))
  }

  /** The concrete repository, client and gateway classes of an Infrastructure assembly. */
  function Adapters(infra: Assembly): (r: seq<TypeInfo>)
    ensures forall t :: t in r <==> t in infra.types && IsAdapter(t)
  {
    Where(infra.types, IsAdapter)
  }

  /** One adapter: its port `I<Name>` must exist, and it must implement it, checked in that order. */
  function AdapterVerdict(infraName: string, ports: map<string, TypeInfo>, adapter: TypeInfo): (v: Verdict)
    ensures v == Pass <==> ("I" + adapter.name) in ports && ports["I" + adapter.name].fullName in adapter.interfaces
    ensures ("I" + adapter.name) !in ports ==>
      v == Fail(infraName + ": Adapter '" + adapter.fullName + "' must implement '" + ("I" + adapter.name) +
                "' declared in a Domain/Application assembly, but it was not found.")
    ensures ("I" + adapter.name) in ports && ports["I" + adapter.name].fullName !in adapter.interfaces ==>
      v == Fail(infraName + ": Adapter '" + adapter.fullName + "' does not implement expected port interface '" +
                ports["I" + adapter.name].fullName + "'.")
  {
    var expected := "I" + adapter.name;
    if expected !in ports then
      Fail(infraName + ": Adapter '" + adapter.fullName + "' must implement '" + expected +
           "' declared in a Domain/Application assembly, but it was not found.")
    else if ports[expected].fullName !in adapter.interfaces then
      Fail(infraName + ": Adapter '" + adapter.fullName + "' does not implement expected port interface '" +
           ports[expected].fullName + "'.")
    else Pass
  }

  function AdapterCheck(infraName: string, ports: map<string, TypeInfo>): TypeInfo -> Verdict
  {
    (t: TypeInfo) => AdapterVerdict(infraName, ports, t)
  }

  function InfrastructureAdapters(ports: map<string, TypeInfo>): Assembly -> Verdict
  {
    (infra: Assembly) => FirstFailure(Adapters(infra), AdapterCheck(infra.name, ports))
  }

  const DuplicateKeyMessage: string := "An item with the same key has already been added. Key: "

  function AdapterRuleVerdict(m: AppArchitectureModel): Verdict
  {
    match PortTypes(m)
    case DuplicateKey(k) => Threw(DuplicateKeyMessage + k)
    case Table(ports) => FirstFailure(m.infrastructures, InfrastructureAdapters(ports))
  }

  /** `InfrastructureRepositoriesAndClientsMustImplementPortInterface`. */
  method InfrastructureAdaptersMustImplementPorts(m: AppArchitectureModel) returns (v: Verdict)
    ensures v == AdapterRuleVerdict(m)
  {
    var lookup := PortTypes(m);
    if lookup.DuplicateKey? {
      return Threw(DuplicateKeyMessage + lookup.key);
    }
    var ports := lookup.byName;
    var k := 0;
    while k < |m.infrastructures|
      invariant 0 <= k <= |m.infrastructures|
      invariant AdapterRuleVerdict(m) == FirstFailure(m.infrastructures[k..], InfrastructureAdapters(ports))
    {
      assert m.infrastructures[k..][1..] == m.infrastructures[k + 1..];
      var infra := m.infrastructures[k];
      var inner := Scan(Adapters(infra), AdapterCheck(infra.name, ports));
      if inner != Pass {
        return inner;
      }
      k := k + 1;
    }
    return Pass;
  }

  /** An adapter rule over a table of ports never throws. */
  lemma AdaptersNeverThrow(ports: map<string, TypeInfo>, infras: seq<Assembly>)
    ensures !FirstFailure(infras, InfrastructureAdapters(ports)).Threw?
  {
    forall infra | infra in infras ensures !InfrastructureAdapters(ports)(infra).Threw? {
      FirstFailureNeverThrows(Adapters(infra), AdapterCheck(infra.name, ports));
    }
    FirstFailureNeverThrows(infras, InfrastructureAdapters(ports));
  }

  /** The adapter rule throws exactly when two port interfaces share a simple name, with the message of `ToDictionary`. */
  lemma AdapterRuleThrowsOnDuplicates(m: AppArchitectureModel)
    ensures AdapterRuleVerdict(m).Threw? <==> PortTypes(m).DuplicateKey?
    ensures PortTypes(m).DuplicateKey? ==> AdapterRuleVerdict(m) == Threw(DuplicateKeyMessage + PortTypes(m).key)
  {
    if PortTypes(m).Table? {
      AdaptersNeverThrow(PortTypes(m).byName, m.infrastructures);
    }
  }

  /** Every adapter of an Infrastructure assembly finds its port `I<Name>` and implements it. */
  predicate AdaptersImplementPorts(ports: map<string, TypeInfo>, infra: Assembly)
  {
    forall t :: t in infra.types && IsAdapter(t) ==> ("I" + t.name) in ports && ports["I" + t.name].fullName in t.interfaces
  }

  lemma InfrastructureAdaptersPass(ports: map<string, TypeInfo>, infra: Assembly)
    ensures InfrastructureAdapters(ports)(infra) == Pass <==> AdaptersImplementPorts(ports, infra)
  {
    FirstFailurePassesOnMembers(Adapters(infra), AdapterCheck(infra.name, ports));
  }

  /** Without duplicate port names, the adapter rule passes exactly when every adapter implements its port. */
  lemma AdapterRuleMeaning(m: AppArchitectureModel)
    requires PortTypes(m).Table?
    ensures AdapterRuleVerdict(m) == Pass <==>
      forall infra :: infra in m.infrastructures ==> AdaptersImplementPorts(PortTypes(m).byName, infra)
  {
    var ports := PortTypes(m).byName;
    FirstFailurePassesOnMembers(m.infrastructures, InfrastructureAdapters(ports));
    forall infra | infra in m.infrastructures
      ensures InfrastructureAdapters(ports)(infra) == Pass <==> AdaptersImplementPorts(ports, infra)
    {
      InfrastructureAdaptersPass(ports, infra);
    }
  }

  // ---------------------------------------------------------------------
  // DbContext confinement
  // ---------------------------------------------------------------------

  predicate IsConcreteDbContext(t: TypeInfo)
  {
    t.isClass && !t.isAbstract && t.isDbContext
  }

  predicate DeclaresDbContext(a: Assembly)
  {
    exists t :: t in a.types && IsConcreteDbContext(t)
  }

  /** The full names of the concrete DbContext types an assembly declares. */
  function DbContextOffenders(a: Assembly): (r: seq<string>)
    ensures r == [] <==> !DeclaresDbContext(a)
  {
    var ds := Where(a.types, IsConcreteDbContext);
    assert ds != [] ==> ds[0] in ds;
    Select(ds, (t: TypeInfo) => t.fullName)
  }

  predicate IsTestAssembly(a: Assembly)
  {
    EndsWith(a.name, ".Tests") || EndsWith(a.name, ".ArchTests")
  }

  function ProductionAssemblies(m: AppArchitectureModel, testAssembly: Assembly): (r: seq<Assembly>)
    ensures forall a :: a in r <==> a in m.all && a != testAssembly && !IsTestAssembly(a)
  {
    Where(m.all, (a: Assembly) => a != testAssembly && !IsTestAssembly(a))
  }

  function OutsideInfrastructureVerdict(a: Assembly): (v: Verdict)
    ensures v == Pass <==> !DeclaresDbContext(a)
  {
    var offenders := DbContextOffenders(a);
    if |offenders| == 0 then Pass
    else Fail(a.name + " defines DbContext types, which is forbidden outside Infrastructure:" + NewLine + Join(NewLine, offenders))
  }

  /** `DbContextMustLiveOnlyInInfrastructure`. */
  method DbContextMustLiveOnlyInInfrastructure(m: AppArchitectureModel, testAssembly: Assembly) returns (v: Verdict)
    ensures v == FirstFailure(Except(ProductionAssemblies(m, testAssembly), m.infrastructures), OutsideInfrastructureVerdict)
  {
    v := Scan(Except(ProductionAssemblies(m, testAssembly), m.infrastructures), OutsideInfrastructureVerdict);
  }

  /** The rule passes exactly when no production assembly outside the Infrastructure list declares a concrete DbContext. */
  lemma DbContextRuleMeaning(m: AppArchitectureModel, testAssembly: Assembly)
    ensures FirstFailure(Except(ProductionAssemblies(m, testAssembly), m.infrastructures), OutsideInfrastructureVerdict) == Pass <==>
      forall a :: a in m.all && a != testAssembly && !IsTestAssembly(a) && a !in m.infrastructures ==> !DeclaresDbContext(a)
  {
    FirstFailurePassesOnMembers(Except(ProductionAssemblies(m, testAssembly), m.infrastructures), OutsideInfrastructureVerdict);
  }

  function InModuleCheck(moduleName: string): Assembly -> Verdict
  {
    (a: Assembly) =>
      if |DbContextOffenders(a)| == 0 then Pass
      else Fail(a.name + " defines DbContext types for module '" + moduleName + "'. DbContext must live in Infrastructure only.")
  }

  /** One module: skipped without an Infrastructure assembly or a DbContext in it, else its other slots are checked. */
  function ModuleDbContextVerdict(g: ModuleGroup): Verdict
  {
    if g.infrastructure.None? then Pass
    else if |DbContextOffenders(g.infrastructure.value)| == 0 then Pass
    else FirstFailure(Somes([g.domain, g.application, g.api]), InModuleCheck(g.name))
  }

  /** `EachModuleShouldHaveDbContextOnlyInItsInfrastructureAssembly`. */
  method EachModuleKeepsDbContextInInfrastructure(m: AppArchitectureModel) returns (v: Verdict)
    ensures v == FirstFailure(m.modules, ModuleDbContextVerdict)
  {
    var k := 0;
    while k < |m.modules|
      invariant 0 <= k <= |m.modules|
      invariant FirstFailure(m.modules, ModuleDbContextVerdict) == FirstFailure(m.modules[k..], ModuleDbContextVerdict)
    {
      assert m.modules[k..][1..] == m.modules[k + 1..];
      var g := m.modules[k];
      k := k + 1;
      if g.infrastructure.None? {
        continue;
      }
      var infraDbContexts := DbContextOffenders(g.infrastructure.value);
      if |infraDbContexts| == 0 {
        continue;
      }
      var inner := Scan(Somes([g.domain, g.application, g.api]), InModuleCheck(g.name));
      if inner != Pass {
        return inner;
      }
    }
    return Pass;
  }

  /** A module whose Infrastructure assembly declares a concrete DbContext has none in its Domain, Application or Api. */
  predicate KeepsDbContextInInfrastructure(g: ModuleGroup)
  {
    g.infrastructure.Some? && DeclaresDbContext(g.infrastructure.value) ==>
      forall a :: a in Somes([g.domain, g.application, g.api]) ==> !DeclaresDbContext(a)
  }

  lemma ModuleDbContextPasses(g: ModuleGroup)
    ensures ModuleDbContextVerdict(g) == Pass <==> KeepsDbContextInInfrastructure(g)
  {
    FirstFailurePassesOnMembers(Somes([g.domain, g.application, g.api]), InModuleCheck(g.name));
  }

  /** The per-module rule passes exactly when every module keeps its DbContext in its Infrastructure assembly. */
  lemma ModuleDbContextRuleMeaning(m: AppArchitectureModel)
    ensures FirstFailure(m.modules, ModuleDbContextVerdict) == Pass <==>
      forall g :: g in m.modules ==> KeepsDbContextInInfrastructure(g)
  {
    FirstFailurePassesOnMembers(m.modules, ModuleDbContextVerdict);
    forall g | g in m.modules ensures ModuleDbContextVerdict(g) == Pass <==> KeepsDbContextInInfrastructure(g) {
      ModuleDbContextPasses(g);
    }
  }

  // ---------------------------------------------------------------------
  // Verdicts that never throw, and the rules on particular models
  // ---------------------------------------------------------------------

  lemma {:induction false} FirstFailureNeverThrows<T>(s: seq<T>, check: T -> Verdict)
    requires forall x :: x in s ==> !check(x).Threw?
    ensures !FirstFailure(s, check).Threw?
  {
    if s != [] {
      FirstFailureNeverThrows(s[1..], check);
    }
  }

  /** With no solution assembly at all, every rule passes. */
  lemma EmptyModelPassesEveryRule(m: AppArchitectureModel, testAssembly: Assembly, rule: DependencyRule)
    requires m.all == [] && m.apis == [] && m.applications == [] && m.domains == [] && m.infrastructures == []
    requires m.buildingBlocksApi.None? && m.buildingBlocksApplication.None? && m.buildingBlocksDomain.None?
    requires m.buildingBlocksInfrastructure.None? && m.modules == []
    ensures RuleVerdict(m, testAssembly, rule) == Pass
    ensures FirstFailure(m.modules, ModuleIsolation(m)) == Pass
    ensures FirstFailure(m.domains + m.applications, PortVerdict) == Pass
    ensures AdapterRuleVerdict(m) == Pass
    ensures FirstFailure(Except(ProductionAssemblies(m, testAssembly), m.infrastructures), OutsideInfrastructureVerdict) == Pass
    ensures FirstFailure(m.modules, ModuleDbContextVerdict) == Pass
  {
    assert m.domains + m.applications == [];
  }

  /**
   * Under a root namespace that prefixes no loaded assembly, as in the
   * repository's own test, discovery finds nothing and every rule passes.
   */
  lemma UnmatchedRootPassesEveryRule(loaded: seq<Assembly>, rootNamespace: string, testAssembly: Assembly, rule: DependencyRule)
    requires forall a :: a in loaded ==> a.isDynamic || !StartsWith(a.name, rootNamespace)
    ensures var m := Discover(loaded, rootNamespace);
      RuleVerdict(m, testAssembly, rule) == Pass && FirstFailure(m.modules, ModuleIsolation(m)) == Pass &&
      FirstFailure(m.domains + m.applications, PortVerdict) == Pass && AdapterRuleVerdict(m) == Pass &&
      FirstFailure(Except(ProductionAssemblies(m, testAssembly), m.infrastructures), OutsideInfrastructureVerdict) == Pass &&
      FirstFailure(m.modules, ModuleDbContextVerdict) == Pass
  {
    UnmatchedRootGivesEmptyModel(loaded, rootNamespace);
    EmptyModelPassesEveryRule(Discover(loaded, rootNamespace), testAssembly, rule);
  }

  /**
   * An assembly in the Application list that uses the BuildingBlocks.Domain
   * name fails `ApplicationShouldNotReferenceBuildingBlocksDomain`.
   */
  lemma ApplicationUsingBuildingBlocksDomainFails(m: AppArchitectureModel, testAssembly: Assembly, a: Assembly, t: TypeInfo)
    requires !IsNullOrWhiteSpace(m.BuildingBlocksDomainName())
    requires a in m.applications && t in a.types && m.BuildingBlocksDomainName().value in t.deps
    ensures RuleVerdict(m, testAssembly, ApplicationShouldNotReferenceBuildingBlocksDomain).Fail?
  {
    var c := Plan(m, testAssembly, ApplicationShouldNotReferenceBuildingBlocksDomain).value;
    assert c.subjects == m.applications && c.forbidden == {m.BuildingBlocksDomainName().value};
    var n := m.BuildingBlocksDomainName().value;
    assert n in t.deps * c.forbidden;
    assert TypeDependsOnAny(t, c.forbidden);
    DependencyRuleMeaning(m, testAssembly, ApplicationShouldNotReferenceBuildingBlocksDomain);
  }

  /**
   * BuildingBlocks assemblies are also in the layer lists of their suffix. So a
   * discovered BuildingBlocks.Application type that uses BuildingBlocks.Domain
   * fails `ApplicationShouldNotReferenceBuildingBlocksDomain`, although the
   * rule for BuildingBlocks.Application itself never forbids that name.
   */
  lemma BuildingBlocksApplicationUsingDomainFails(loaded: seq<Assembly>, rootNamespace: string, testAssembly: Assembly, t: TypeInfo)
    requires var m := Discover(loaded, rootNamespace);
      m.buildingBlocksApplication.Some? && m.buildingBlocksDomain.Some? &&
      t in m.buildingBlocksApplication.value.types && BuildingBlocksName(rootNamespace, Domain) in t.deps
    ensures RuleVerdict(Discover(loaded, rootNamespace), testAssembly, ApplicationShouldNotReferenceBuildingBlocksDomain).Fail?
  {
    var m := Discover(loaded, rootNamespace);
    DiscoveredBuildingBlock(loaded, rootNamespace, Application);
    DiscoveredBuildingBlock(loaded, rootNamespace, Domain);
    BuildingBlocksNameNotBlank(rootNamespace, Domain);
    ApplicationUsingBuildingBlocksDomainFails(m, testAssembly, m.buildingBlocksApplication.value, t);
  }
}
