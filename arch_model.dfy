/**
 * The architecture model the architecture tests build from the loaded
 * assemblies: the solution's assemblies, their layer by name suffix, the
 * four transversal BuildingBlocks assemblies, and the modules discovered
 * from the naming convention `<root>.Modules.<Module>.<Layer>`.
 *
 * Loading assemblies from disk and reflection are outside the model: the
 * loaded assemblies are the input of `Discover`, each with its name (a
 * missing name reads as the empty string, as the source's `?? ""` does),
 * its types, and for each type what interfaces it implements and which
 * names the dependency search finds among what it references.
 */
module ArchModel {
  import opened Wrappers
  import opened Linq
  import opened Text

  /** A type as reflection and the dependency search see it. */
  datatype TypeInfo = TypeInfo(
    name: string,
    fullName: string,
    isInterface: bool,
    isClass: bool,
    isAbstract: bool,
    /** Full names of the interfaces it implements. */
    interfaces: set<string>,
    /** Whether `DbContext` is assignable from it. */
    isDbContext: bool,
    /** The names the dependency search finds among the types it references. */
    deps: set<string>)

  datatype Assembly = Assembly(name: string, isDynamic: bool, types: seq<TypeInfo>)

  datatype Layer = Unknown | Api | Application | Domain | Infrastructure

  predicate IsApiName(name: string)
  {
    EndsWith(name, ".Api") || EndsWith(name, ".RestApi") || EndsWith(name, ".Graphql") || EndsWith(name, ".GraphQL")
  }

  /** The layer of an assembly, from the suffix of its name, tried in the source's order. */
  function GetLayer(name: string): Layer
  {
    if EndsWith(name, ".Domain") then Domain
    else if EndsWith(name, ".Application") then Application
    else if EndsWith(name, ".Infrastructure") then Infrastructure
    else if IsApiName(name) then Api
    else Unknown
  }

  lemma SuffixesExclusive(s: string, a: string, b: string, k: nat)
    requires |a| <= |b| && k < |a| && b[|b| - |a| + k] != a[k]
    ensures !(EndsWith(s, a) && EndsWith(s, b))
  {
    assert b[|b| - |a|..][k] != a[k];
    if EndsWith(s, a) && EndsWith(s, b) {
      SuffixOfSuffix(s, a, b);
    }
  }

  /** The Domain, Application and Infrastructure suffixes exclude each other and the Api ones. */
  lemma LayerSuffixesExclusive(name: string)
    ensures !(EndsWith(name, ".Domain") && EndsWith(name, ".Application"))
    ensures !(EndsWith(name, ".Domain") && EndsWith(name, ".Infrastructure"))
    ensures !(EndsWith(name, ".Application") && EndsWith(name, ".Infrastructure"))
    ensures !(EndsWith(name, ".Domain") && IsApiName(name))
    ensures !(EndsWith(name, ".Application") && IsApiName(name))
    ensures !(EndsWith(name, ".Infrastructure") && IsApiName(name))
  {
    SuffixesExclusive(name, ".Domain", ".Application", 0);
    SuffixesExclusive(name, ".Domain", ".Infrastructure", 0);
    SuffixesExclusive(name, ".Application", ".Infrastructure", 0);
    SuffixesExclusive(name, ".Api", ".Domain", 0);
    SuffixesExclusive(name, ".Api", ".Application", 0);
    SuffixesExclusive(name, ".Api", ".Infrastructure", 0);
    SuffixesExclusive(name, ".Domain", ".RestApi", 0);
    SuffixesExclusive(name, ".Domain", ".Graphql", 0);
    SuffixesExclusive(name, ".Domain", ".GraphQL", 0);
    SuffixesExclusive(name, ".RestApi", ".Application", 0);
    SuffixesExclusive(name, ".Graphql", ".Application", 0);
    SuffixesExclusive(name, ".GraphQL", ".Application", 0);
    SuffixesExclusive(name, ".RestApi", ".Infrastructure", 0);
    SuffixesExclusive(name, ".Graphql", ".Infrastructure", 0);
    SuffixesExclusive(name, ".GraphQL", ".Infrastructure", 0);
  }

  /**
   * No name ends with two of the layer suffixes (".Api" inside ".RestApi"
   * aside, which both mean Api), so the order in which `GetLayer` tries them
   * does not matter: each layer is exactly the names with its suffix.
   */
  lemma GetLayerIsBySuffix(name: string)
    ensures GetLayer(name) == Domain <==> EndsWith(name, ".Domain")
    ensures GetLayer(name) == Application <==> EndsWith(name, ".Application")
    ensures GetLayer(name) == Infrastructure <==> EndsWith(name, ".Infrastructure")
    ensures GetLayer(name) == Api <==> IsApiName(name)
  {
    LayerSuffixesExclusive(name);
  }

  /** A named group of assembly slots, one per layer, found by exact name. */
  datatype ModuleGroup = ModuleGroup(
    name: string,
    api: Option<Assembly>,
    application: Option<Assembly>,
    domain: Option<Assembly>,
    infrastructure: Option<Assembly>)
  {
    /** The present slots in the order Domain, Application, Infrastructure, Api. */
    function Assemblies(): (r: seq<Assembly>)
      ensures forall a :: a in r <==> Some(a) in [domain, application, infrastructure, api]
    {
      Somes([domain, application, infrastructure, api])
    }
  }

  datatype AppArchitectureModel = AppArchitectureModel(
    rootNamespace: string,
    all: seq<Assembly>,
    apis: seq<Assembly>,
    applications: seq<Assembly>,
    domains: seq<Assembly>,
    infrastructures: seq<Assembly>,
    buildingBlocksApi: Option<Assembly>,
    buildingBlocksApplication: Option<Assembly>,
    buildingBlocksDomain: Option<Assembly>,
    buildingBlocksInfrastructure: Option<Assembly>,
    modules: seq<ModuleGroup>)
  {
    /** The BuildingBlocks assemblies present, in the order Api, Application, Domain, Infrastructure. */
    function BuildingBlocksAll(): (r: seq<Assembly>)
      ensures |r| <= 4
      ensures forall a :: a in r <==>
        Some(a) in [buildingBlocksApi, buildingBlocksApplication, buildingBlocksDomain, buildingBlocksInfrastructure]
    {
      Somes([buildingBlocksApi, buildingBlocksApplication, buildingBlocksDomain, buildingBlocksInfrastructure])
    }

    /** Every slot of every module, each assembly once. */
    function ModuleAssemblies(): (r: seq<Assembly>)
      ensures NoDuplicates(r)
      ensures forall a :: a in r <==> exists k :: 0 <= k < |modules| && a in modules[k].Assemblies()
    {
      var groups := Select(modules, (g: ModuleGroup) => g.Assemblies());
      assert forall k :: 0 <= k < |modules| ==> groups[k] == modules[k].Assemblies();
      Distinct(Flatten(groups))
    }

    /** The BuildingBlocks slot of a layer. */
    function BuildingBlock(layer: Layer): Option<Assembly>
    {
      match layer
      case Api => buildingBlocksApi
      case Application => buildingBlocksApplication
      case Domain => buildingBlocksDomain
      case Infrastructure => buildingBlocksInfrastructure
      case Unknown => None
    }

    /** The list of a layer's assemblies. */
    function LayerList(layer: Layer): seq<Assembly>
    {
      match layer
      case Api => apis
      case Application => applications
      case Domain => domains
      case Infrastructure => infrastructures
      case Unknown => []
    }

    function ApiNames(): set<string> { Names(apis) }
    function ApplicationNames(): set<string> { Names(applications) }
    function DomainNames(): set<string> { Names(domains) }
    function InfrastructureNames(): set<string> { Names(infrastructures) }
    function ModuleAssemblyNames(): set<string> { Names(ModuleAssemblies()) }

    function BuildingBlocksApiName(): Option<string> { NameOf(buildingBlocksApi) }
    function BuildingBlocksApplicationName(): Option<string> { NameOf(buildingBlocksApplication) }
    function BuildingBlocksDomainName(): Option<string> { NameOf(buildingBlocksDomain) }
    function BuildingBlocksInfrastructureName(): Option<string> { NameOf(buildingBlocksInfrastructure) }
  }

  function Names(asms: seq<Assembly>): set<string>
  {
    set a | a in asms :: a.name
  }

  function NameOf(a: Option<Assembly>): Option<string>
  {
    match a
    case None => None
    case Some(x) => Some(x.name)
  }

  /** The loaded assemblies that are not dynamic and whose name starts with the root namespace, each once. */
  function SolutionAssemblies(loaded: seq<Assembly>, rootNamespace: string): (all: seq<Assembly>)
    ensures NoDuplicates(all)
    ensures forall a :: a in all <==> a in loaded && !a.isDynamic && StartsWith(a.name, rootNamespace)
  {
    Distinct(Where(Where(loaded, (a: Assembly) => !a.isDynamic), (a: Assembly) => StartsWith(a.name, rootNamespace)))
  }

  function InLayer(all: seq<Assembly>, layer: Layer): (r: seq<Assembly>)
    ensures forall a :: a in r <==> a in all && GetLayer(a.name) == layer
  {
    Where(all, IsInLayer(layer))
  }

  function IsInLayer(layer: Layer): Assembly -> bool
  {
    (a: Assembly) => GetLayer(a.name) == layer
  }

  /** A layer's list keeps every assembly of `all` in that layer, and only those, in the order of `all`. */
  lemma InLayerKeepsOrder(all: seq<Assembly>, layer: Layer)
    ensures exists idx :: (IsOrderedSelection(idx, InLayer(all, layer), all) &&
                           forall i :: 0 <= i < |all| && GetLayer(all[i].name) == layer ==> i in idx)
  {
    var idx := WhereIndices(all, IsInLayer(layer));
    assert InLayer(all, layer) == Where(all, IsInLayer(layer));
    forall i | 0 <= i < |all| && GetLayer(all[i].name) == layer
      ensures i in idx
    {
      assert IsInLayer(layer)(all[i]);
    }
  }

  /** The first assembly with exactly this name. */
  function FindExact(all: seq<Assembly>, fullName: string): (r: Option<Assembly>)
    ensures r.Some? ==> r.value in all && r.value.name == fullName
    ensures r.None? <==> forall a :: a in all ==> a.name != fullName
    ensures r.Some? ==> exists i :: 0 <= i < |all| && all[i] == r.value && forall j :: 0 <= j < i ==> all[j].name != fullName
  {
    FirstWhere(all, (a: Assembly) => a.name == fullName)
  }

  function ModulesToken(rootNamespace: string): string
  {
    rootNamespace + ".Modules."
  }

  /** The non-empty dot-separated segments after the first occurrence of `<root>.Modules.` in a name that contains it. */
  function SegmentsAfterToken(asmName: string, rootNamespace: string): seq<string>
    requires Contains(asmName, ModulesToken(rootNamespace))
  {
    var token := ModulesToken(rootNamespace);
    SplitNonEmpty(asmName[IndexOf(asmName, token).value + |token|..], '.')
  }

  /**
   * The module an assembly name belongs to: after the first occurrence of
   * `<root>.Modules.`, the first of the non-empty dot-separated segments,
   * provided there are at least two of them.
   */
  function GetModuleName(asmName: string, rootNamespace: string): (r: Option<string>)
    ensures r.Some? ==> r.value != "" && '.' !in r.value && Contains(asmName, ModulesToken(rootNamespace))
    ensures r.Some? <==> Contains(asmName, ModulesToken(rootNamespace)) && |SegmentsAfterToken(asmName, rootNamespace)| >= 2
    ensures r.Some? ==> r.value == SegmentsAfterToken(asmName, rootNamespace)[0]
  {
    var token := ModulesToken(rootNamespace);
    match IndexOf(asmName, token)
    case None => None
    case Some(idx) =>
      var parts := SplitNonEmpty(asmName[idx + |token|..], '.');
      if |parts| >= 2 then
        assert parts[0] in parts;
        Some(parts[0])
      else None
  }

  /** A name built by the convention gives back its module name, also with nested segments before the layer. */
  lemma {:induction false} ModuleNameOfConventionalName(rootNamespace: string, moduleName: string, rest: seq<string>)
    requires moduleName != "" && '.' !in moduleName
    requires |rest| >= 1 && forall i :: 0 <= i < |rest| ==> rest[i] != "" && '.' !in rest[i]
    ensures GetModuleName(ModulesToken(rootNamespace) + moduleName + "." + Join(".", rest), rootNamespace) == Some(moduleName)
  {
    var token := ModulesToken(rootNamespace);
    var tail := moduleName + "." + Join(".", rest);
    assert token + moduleName + "." + Join(".", rest) == token + tail;
    TokenAtStart(token, tail);
    SplitConventionalTail(moduleName, rest);
  }

  /**
   * The token need not start the name: whatever comes before its first
   * occurrence is ignored, so `x.<root>.Modules.<m>.<s1>...<sk>` also yields `m`.
   */
  lemma {:induction false} ModuleNameAfterPrefix(prefix: string, rootNamespace: string, moduleName: string, rest: seq<string>)
    requires moduleName != "" && '.' !in moduleName
    requires |rest| >= 1 && forall i :: 0 <= i < |rest| ==> rest[i] != "" && '.' !in rest[i]
    requires forall j: nat :: j < |prefix| ==>
      !OccursAt(prefix + ModulesToken(rootNamespace) + moduleName + "." + Join(".", rest), ModulesToken(rootNamespace), j)
    ensures GetModuleName(prefix + ModulesToken(rootNamespace) + moduleName + "." + Join(".", rest), rootNamespace) == Some(moduleName)
  {
    var token := ModulesToken(rootNamespace);
    var tail := moduleName + "." + Join(".", rest);
    var name := prefix + token + moduleName + "." + Join(".", rest);
    assert name == prefix + token + tail;
    TokenAfterPrefix(prefix, token, tail);
    SplitConventionalTail(moduleName, rest);
  }

  /** A token whose first occurrence follows `prefix` is found right after it. */
  lemma TokenAfterPrefix(prefix: string, token: string, tail: string)
    requires forall j: nat :: j < |prefix| ==> !OccursAt(prefix + token + tail, token, j)
    ensures IndexOf(prefix + token + tail, token) == Some(|prefix|)
    ensures (prefix + token + tail)[|prefix| + |token|..] == tail
  {
    var name := prefix + token + tail;
    assert name[|prefix|..|prefix| + |token|] == token;
    assert OccursAt(name, token, |prefix|);
  }

  /** A single segment after the token, with or without a trailing dot, names no module. */
  lemma SingleSegmentNamesNoModule(rootNamespace: string, segment: string)
    requires '.' !in segment
    ensures GetModuleName(ModulesToken(rootNamespace) + segment, rootNamespace).None?
    ensures GetModuleName(ModulesToken(rootNamespace) + segment + ".", rootNamespace).None?
  {
    var token := ModulesToken(rootNamespace);
    TokenAtStart(token, segment);
    SplitWithoutSeparator(segment, '.');
    assert SplitNonEmpty(segment, '.') == Where([segment], NonEmpty);
    TokenAtStart(token, segment + ".");
    assert token + segment + "." == token + (segment + ".");
    SplitAfterPiece(segment, '.', "");
    assert segment + "." == segment + ['.'] + "";
    assert Split("", '.') == [""];
    WhereConcat([segment], [""], NonEmpty);
    assert Where([""], NonEmpty) == [];
  }

  /** A name that starts with the token finds it at index 0, and what follows is the tail. */
  lemma TokenAtStart(token: string, tail: string)
    ensures IndexOf(token + tail, token) == Some(0)
    ensures (token + tail)[|token|..] == tail
  {
    assert OccursAt(token + tail, token, 0);
  }

  /** `<m>.<s1>...<sk>` splits at dots into `m` and the segments, none of them empty. */
  lemma SplitConventionalTail(moduleName: string, rest: seq<string>)
    requires moduleName != "" && '.' !in moduleName
    requires |rest| >= 1 && forall i :: 0 <= i < |rest| ==> rest[i] != "" && '.' !in rest[i]
    ensures SplitNonEmpty(moduleName + "." + Join(".", rest), '.') == [moduleName] + rest
  {
    var tail := moduleName + "." + Join(".", rest);
    assert tail == moduleName + ['.'] + Join(['.'], rest);
    SplitAfterPiece(moduleName, '.', Join(['.'], rest));
    SplitJoin(rest, '.');
    assert Split(tail, '.') == [moduleName] + rest;
    WhereConcat([moduleName], rest, NonEmpty);
    WhereAll(rest, NonEmpty);
  }

  predicate IsBuildingBlocks(asmName: string, rootNamespace: string)
  {
    StartsWith(asmName, rootNamespace + ".BuildingBlocks.")
  }

  /**
   * Whether `name` is a module name the discovery reports: some solution
   * assembly with a non-blank name outside the BuildingBlocks yields it.
   */
  predicate IsDiscoveredModule(all: seq<Assembly>, rootNamespace: string, name: string)
  {
    !IsBlank(name) &&
    exists a :: a in all && IsModuleCandidate(a, rootNamespace) && GetModuleName(a.name, rootNamespace) == Some(name)
  }

  predicate IsModuleCandidate(a: Assembly, rootNamespace: string)
  {
    !IsBlank(a.name) && !IsBuildingBlocks(a.name, rootNamespace)
  }

  /** The module name each candidate yields, blank ones and none dropped. */
  function FoundModuleNames(all: seq<Assembly>, rootNamespace: string): (found: seq<string>)
    ensures forall n :: n in found <==> IsDiscoveredModule(all, rootNamespace, n)
  {
    var candidates := Where(all, (a: Assembly) => IsModuleCandidate(a, rootNamespace));
    var yielded := Select(candidates, (a: Assembly) => GetModuleName(a.name, rootNamespace));
    var kept := Where(yielded, (m: Option<string>) => !IsNullOrWhiteSpace(m));
    forall n ensures Some(n) in kept <==> IsDiscoveredModule(all, rootNamespace, n) {
      InSelectWhere(all, (a: Assembly) => IsModuleCandidate(a, rootNamespace), (a: Assembly) => GetModuleName(a.name, rootNamespace), Some(n));
    }
    Somes(kept)
  }

  /** The module names, each once, in ordinal order. */
  function ModuleNames(all: seq<Assembly>, rootNamespace: string): (r: seq<string>)
    ensures StrictlySorted(r)
    ensures forall n :: n in r <==> IsDiscoveredModule(all, rootNamespace, n)
  {
    SortedDistinct(FoundModuleNames(all, rootNamespace))
  }

  function ModuleAssemblyName(rootNamespace: string, moduleName: string, suffix: string): string
  {
    ModulesToken(rootNamespace) + moduleName + "." + suffix
  }

  /**
   * The Api slot of a module: the first solution assembly named
   * `<root>.Modules.<m>.Api`, else `.RestApi`, else `.Graphql`, else `.GraphQL`.
   */
  function ModuleApi(all: seq<Assembly>, rootNamespace: string, moduleName: string): (r: Option<Assembly>)
    ensures r.Some? ==> r.value in all && r == FindExact(all, r.value.name)
    ensures r.None? <==> forall a :: a in all ==>
      a.name !in {ModuleAssemblyName(rootNamespace, moduleName, "Api"), ModuleAssemblyName(rootNamespace, moduleName, "RestApi"),
                  ModuleAssemblyName(rootNamespace, moduleName, "Graphql"), ModuleAssemblyName(rootNamespace, moduleName, "GraphQL")}
    ensures HasAssemblyNamed(all, ModuleAssemblyName(rootNamespace, moduleName, "Api"))
      ==> r.Some? && r.value.name == ModuleAssemblyName(rootNamespace, moduleName, "Api")
    ensures !HasAssemblyNamed(all, ModuleAssemblyName(rootNamespace, moduleName, "Api"))
      && HasAssemblyNamed(all, ModuleAssemblyName(rootNamespace, moduleName, "RestApi"))
      ==> r.Some? && r.value.name == ModuleAssemblyName(rootNamespace, moduleName, "RestApi")
    ensures !HasAssemblyNamed(all, ModuleAssemblyName(rootNamespace, moduleName, "Api"))
      && !HasAssemblyNamed(all, ModuleAssemblyName(rootNamespace, moduleName, "RestApi"))
      && HasAssemblyNamed(all, ModuleAssemblyName(rootNamespace, moduleName, "Graphql"))
      ==> r.Some? && r.value.name == ModuleAssemblyName(rootNamespace, moduleName, "Graphql")
    ensures !HasAssemblyNamed(all, ModuleAssemblyName(rootNamespace, moduleName, "Api"))
      && !HasAssemblyNamed(all, ModuleAssemblyName(rootNamespace, moduleName, "RestApi"))
      && !HasAssemblyNamed(all, ModuleAssemblyName(rootNamespace, moduleName, "Graphql"))
      && HasAssemblyNamed(all, ModuleAssemblyName(rootNamespace, moduleName, "GraphQL"))
      ==> r.Some? && r.value.name == ModuleAssemblyName(rootNamespace, moduleName, "GraphQL")
  {
    var api := FindExact(all, ModuleAssemblyName(rootNamespace, moduleName, "Api"));
    var restApi := FindExact(all, ModuleAssemblyName(rootNamespace, moduleName, "RestApi"));
    var graphql := FindExact(all, ModuleAssemblyName(rootNamespace, moduleName, "Graphql"));
    var graphQL := FindExact(all, ModuleAssemblyName(rootNamespace, moduleName, "GraphQL"));
    if api.Some? then api
    else if restApi.Some? then restApi
    else if graphql.Some? then graphql
    else graphQL
  }

  /** Some assembly of `all` has exactly this name. */
  predicate HasAssemblyNamed(all: seq<Assembly>, name: string)
  {
    exists a :: a in all && a.name == name
  }

  function GroupOf(all: seq<Assembly>, rootNamespace: string, moduleName: string): (g: ModuleGroup)
    ensures g.name == moduleName
    ensures g.api == ModuleApi(all, rootNamespace, moduleName)
    ensures g.application.None? <==> !HasAssemblyNamed(all, ModuleAssemblyName(rootNamespace, moduleName, "Application"))
    ensures g.domain.None? <==> !HasAssemblyNamed(all, ModuleAssemblyName(rootNamespace, moduleName, "Domain"))
    ensures g.infrastructure.None? <==> !HasAssemblyNamed(all, ModuleAssemblyName(rootNamespace, moduleName, "Infrastructure"))
    ensures g.application.Some? ==>
      g.application.value in all && g.application.value.name == ModuleAssemblyName(rootNamespace, moduleName, "Application")
    ensures g.domain.Some? ==>
      g.domain.value in all && g.domain.value.name == ModuleAssemblyName(rootNamespace, moduleName, "Domain")
    ensures g.infrastructure.Some? ==>
      g.infrastructure.value in all && g.infrastructure.value.name == ModuleAssemblyName(rootNamespace, moduleName, "Infrastructure")
  {
    ModuleGroup(
      moduleName,
      ModuleApi(all, rootNamespace, moduleName),
      FindExact(all, ModuleAssemblyName(rootNamespace, moduleName, "Application")),
      FindExact(all, ModuleAssemblyName(rootNamespace, moduleName, "Domain")),
      FindExact(all, ModuleAssemblyName(rootNamespace, moduleName, "Infrastructure")))
  }

  /** `AppArchitectureModel.DiscoverFromTestAssembly`, given the assemblies the loading step left loaded. */
  function Discover(loaded: seq<Assembly>, rootNamespace: string): (m: AppArchitectureModel)
    ensures m.rootNamespace == rootNamespace
    ensures m.all == SolutionAssemblies(loaded, rootNamespace)
    ensures |m.modules| == |ModuleNames(m.all, rootNamespace)|
    ensures forall k :: 0 <= k < |m.modules| ==> m.modules[k] == GroupOf(m.all, rootNamespace, ModuleNames(m.all, rootNamespace)[k])
  {
    var all := SolutionAssemblies(loaded, rootNamespace);
    AppArchitectureModel(
      rootNamespace,
      all,
      InLayer(all, Api),
      InLayer(all, Application),
      InLayer(all, Domain),
      InLayer(all, Infrastructure),
      FindExact(all, BuildingBlocksName(rootNamespace, Api)),
      FindExact(all, BuildingBlocksName(rootNamespace, Application)),
      FindExact(all, BuildingBlocksName(rootNamespace, Domain)),
      FindExact(all, BuildingBlocksName(rootNamespace, Infrastructure)),
      Select(ModuleNames(all, rootNamespace), (n: string) => GroupOf(all, rootNamespace, n)))
  }

  /** The four layer lists hold exactly the solution assemblies with the layer's suffix, and no assembly is in two. */
  lemma DiscoveredLayers(loaded: seq<Assembly>, rootNamespace: string)
    ensures var m := Discover(loaded, rootNamespace);
      forall a :: a in m.all ==>
        (a in m.domains <==> EndsWith(a.name, ".Domain")) &&
        (a in m.applications <==> EndsWith(a.name, ".Application")) &&
        (a in m.infrastructures <==> EndsWith(a.name, ".Infrastructure")) &&
        (a in m.apis <==> IsApiName(a.name))
    ensures var m := Discover(loaded, rootNamespace);
      forall a :: a in m.domains ==> a in m.all && a !in m.applications && a !in m.infrastructures && a !in m.apis
    ensures var m := Discover(loaded, rootNamespace);
      forall a :: a in m.applications ==> a in m.all && a !in m.infrastructures && a !in m.apis
    ensures var m := Discover(loaded, rootNamespace);
      forall a :: a in m.infrastructures ==> a in m.all && a !in m.apis
  {
    var m := Discover(loaded, rootNamespace);
    forall a | a in m.all {
      GetLayerIsBySuffix(a.name);
    }
  }

  function LayerSuffix(layer: Layer): string
  {
    match layer
    case Unknown => ""
    case Api => ".Api"
    case Application => ".Application"
    case Domain => ".Domain"
    case Infrastructure => ".Infrastructure"
  }

  /** `<root>.BuildingBlocks.Api`, `.Application`, `.Domain` or `.Infrastructure`. */
  function BuildingBlocksName(rootNamespace: string, layer: Layer): string
  {
    rootNamespace + ".BuildingBlocks" + LayerSuffix(layer)
  }

  /** No BuildingBlocks name is blank. */
  lemma BuildingBlocksNameNotBlank(rootNamespace: string, layer: Layer)
    ensures !IsBlank(BuildingBlocksName(rootNamespace, layer))
  {
    assert BuildingBlocksName(rootNamespace, layer)[|rootNamespace| + 1] == 'B';
  }

  /** An assembly whose name carries a layer's suffix is in that layer's list. */
  lemma InLayerBySuffix(all: seq<Assembly>, a: Assembly, layer: Layer)
    requires layer != Unknown && a in all && EndsWith(a.name, LayerSuffix(layer))
    ensures a in InLayer(all, layer)
  {
    LayerSuffixesExclusive(a.name);
  }

  /** What a BuildingBlocks slot holds: the first solution assembly with the conventional name, which lies in its layer's list. */
  lemma BuildingBlocksSlot(all: seq<Assembly>, rootNamespace: string, layer: Layer, slot: Option<Assembly>)
    requires layer != Unknown
    requires slot == FindExact(all, BuildingBlocksName(rootNamespace, layer))
    ensures slot.None? <==> forall a :: a in all ==> a.name != BuildingBlocksName(rootNamespace, layer)
    ensures slot.Some? ==> slot.value.name == BuildingBlocksName(rootNamespace, layer)
    ensures slot.Some? ==> slot.value in InLayer(all, layer)
    ensures slot.Some? ==> !IsModuleCandidate(slot.value, rootNamespace)
  {
    if slot.Some? {
      BuildingBlocksNameShape(rootNamespace, layer);
      InLayerBySuffix(all, slot.value, layer);
    }
  }

  /** A BuildingBlocks name starts with `<root>.BuildingBlocks.` and ends with its layer's suffix. */
  lemma BuildingBlocksNameShape(rootNamespace: string, layer: Layer)
    requires layer != Unknown
    ensures IsBuildingBlocks(BuildingBlocksName(rootNamespace, layer), rootNamespace)
    ensures EndsWith(BuildingBlocksName(rootNamespace, layer), LayerSuffix(layer))
  {
    var n := BuildingBlocksName(rootNamespace, layer);
    var prefix := rootNamespace + ".BuildingBlocks.";
    assert n == prefix + LayerSuffix(layer)[1..];
    assert n[..|prefix|] == prefix;
    assert n[|n| - |LayerSuffix(layer)|..] == LayerSuffix(layer);
  }

  /**
   * Each BuildingBlocks slot holds a solution assembly with exactly the
   * conventional name, is empty only when there is none, lies in the layer
   * list of its suffix, and never counts as a candidate for a module.
   */
  lemma DiscoveredBuildingBlock(loaded: seq<Assembly>, rootNamespace: string, layer: Layer)
    requires layer != Unknown
    ensures var m := Discover(loaded, rootNamespace); var slot := m.BuildingBlock(layer);
      (slot.None? <==> forall a :: a in m.all ==> a.name != BuildingBlocksName(rootNamespace, layer)) &&
      (slot.Some? ==>
        slot.value.name == BuildingBlocksName(rootNamespace, layer) && slot.value in m.LayerList(layer) &&
        !IsModuleCandidate(slot.value, rootNamespace))
  {
    var m := Discover(loaded, rootNamespace);
    BuildingBlocksSlot(m.all, rootNamespace, layer, m.BuildingBlock(layer));
  }

  /** A root namespace that prefixes no loaded name yields an empty model. */
  lemma UnmatchedRootGivesEmptyModel(loaded: seq<Assembly>, rootNamespace: string)
    requires forall a :: a in loaded ==> a.isDynamic || !StartsWith(a.name, rootNamespace)
    ensures var m := Discover(loaded, rootNamespace);
      m.all == [] && m.apis == [] && m.applications == [] && m.domains == [] && m.infrastructures == []
      && m.buildingBlocksApi.None? && m.buildingBlocksApplication.None? && m.buildingBlocksDomain.None?
      && m.buildingBlocksInfrastructure.None? && m.modules == []
  {
    var m := Discover(loaded, rootNamespace);
  }

  /** `<root>.Modules.<m>...` neither is blank nor starts like a BuildingBlocks name. */
  lemma ModuleNamesAreCandidates(a: Assembly, rootNamespace: string, tail: string)
    requires a.name == ModulesToken(rootNamespace) + tail
    ensures IsModuleCandidate(a, rootNamespace)
  {
    assert a.name[|rootNamespace|] == '.' && !IsWhiteSpace('.');
    var bb := rootNamespace + ".BuildingBlocks.";
    assert a.name[|rootNamespace| + 1] == 'M';
    assert |a.name| < |bb| || a.name[..|bb|][|rootNamespace| + 1] == 'M';
  }

  /** A name built by the convention is a candidate for a module. */
  lemma ConventionalNameIsCandidate(a: Assembly, rootNamespace: string, moduleName: string, rest: seq<string>)
    requires a.name == ModulesToken(rootNamespace) + moduleName + "." + Join(".", rest)
    ensures IsModuleCandidate(a, rootNamespace)
  {
    var tail := moduleName + "." + Join(".", rest);
    assert a.name == ModulesToken(rootNamespace) + tail;
    ModuleNamesAreCandidates(a, rootNamespace, tail);
  }

  /** A solution assembly named by the convention, with any non-empty segments after the module, makes its module discovered. */
  lemma ConventionalNameIsDiscovered(all: seq<Assembly>, rootNamespace: string, a: Assembly, moduleName: string, rest: seq<string>)
    requires a in all
    requires !IsBlank(moduleName) && '.' !in moduleName
    requires |rest| >= 1 && forall i :: 0 <= i < |rest| ==> rest[i] != "" && '.' !in rest[i]
    requires a.name == ModulesToken(rootNamespace) + moduleName + "." + Join(".", rest)
    ensures IsDiscoveredModule(all, rootNamespace, moduleName)
  {
    ConventionalNameIsCandidate(a, rootNamespace, moduleName, rest);
    assert moduleName != "";
    ModuleNameOfConventionalName(rootNamespace, moduleName, rest);
  }

  /** A loaded, non-dynamic assembly whose name starts with the root namespace is a solution assembly. */
  lemma InSolution(loaded: seq<Assembly>, rootNamespace: string, a: Assembly, tail: string)
    requires a in loaded && !a.isDynamic && a.name == rootNamespace + tail
    ensures a in SolutionAssemblies(loaded, rootNamespace)
  {
    assert a.name[..|rootNamespace|] == rootNamespace;
  }

  /** Every discovered module name has its group, built by exact names, in the model. */
  lemma DiscoveredModuleHasGroup(loaded: seq<Assembly>, rootNamespace: string, moduleName: string)
    requires IsDiscoveredModule(SolutionAssemblies(loaded, rootNamespace), rootNamespace, moduleName)
    ensures var m := Discover(loaded, rootNamespace);
      GroupOf(m.all, rootNamespace, moduleName) in m.modules
  {
    var m := Discover(loaded, rootNamespace);
    var names := ModuleNames(m.all, rootNamespace);
    var k :| 0 <= k < |names| && names[k] == moduleName;
    assert m.modules[k] == GroupOf(m.all, rootNamespace, moduleName);
  }

  /**
   * A loaded solution assembly named `<root>.Modules.<m>.<Layer>` makes `<m>`
   * a module whose slot for that layer is filled.
   */
  lemma ConventionalAssemblyFillsItsSlot(loaded: seq<Assembly>, rootNamespace: string, a: Assembly, moduleName: string, layer: string)
    requires a in loaded && !a.isDynamic
    requires !IsBlank(moduleName) && '.' !in moduleName
    requires layer != "" && '.' !in layer
    requires a.name == ModuleAssemblyName(rootNamespace, moduleName, layer)
    ensures var m := Discover(loaded, rootNamespace);
      exists g :: g in m.modules && g.name == moduleName &&
        (layer == "Domain" ==> g.domain.Some?) &&
        (layer == "Application" ==> g.application.Some?) &&
        (layer == "Infrastructure" ==> g.infrastructure.Some?)
  {
    var all := SolutionAssemblies(loaded, rootNamespace);
    InSolution(loaded, rootNamespace, a, ".Modules." + moduleName + "." + layer);
    LayerNameIsDiscovered(all, rootNamespace, a, moduleName, layer);
    DiscoveredModuleHasGroup(loaded, rootNamespace, moduleName);
    FilledSlot(all, rootNamespace, a, moduleName, layer);
    var g := GroupOf(all, rootNamespace, moduleName);
    assert g in Discover(loaded, rootNamespace).modules && g.name == moduleName;
  }

  lemma LayerNameIsDiscovered(all: seq<Assembly>, rootNamespace: string, a: Assembly, moduleName: string, layer: string)
    requires a in all
    requires !IsBlank(moduleName) && '.' !in moduleName
    requires layer != "" && '.' !in layer
    requires a.name == ModuleAssemblyName(rootNamespace, moduleName, layer)
    ensures IsDiscoveredModule(all, rootNamespace, moduleName)
  {
    assert Join(".", [layer]) == layer;
    ConventionalNameIsDiscovered(all, rootNamespace, a, moduleName, [layer]);
  }

  lemma FilledSlot(all: seq<Assembly>, rootNamespace: string, a: Assembly, moduleName: string, layer: string)
    requires a in all
    requires a.name == ModuleAssemblyName(rootNamespace, moduleName, layer)
    ensures var g := GroupOf(all, rootNamespace, moduleName);
      (layer == "Domain" ==> g.domain.Some?) &&
      (layer == "Application" ==> g.application.Some?) &&
      (layer == "Infrastructure" ==> g.infrastructure.Some?)
  {
  }

  /**
   * A module assembly with an extra segment, `<root>.Modules.<m>.<x>.Domain`,
   * still makes `<m>` a module, but is not its Domain slot: that slot only
   * takes the exact name `<root>.Modules.<m>.Domain`.
   */
  lemma NestedAssemblyIsNotASlot(loaded: seq<Assembly>, rootNamespace: string, a: Assembly, moduleName: string, extra: string)
    requires a in loaded && !a.isDynamic
    requires !IsBlank(moduleName) && '.' !in moduleName
    requires extra != "" && '.' !in extra
    requires a.name == ModuleAssemblyName(rootNamespace, moduleName, extra + ".Domain")
    ensures var m := Discover(loaded, rootNamespace);
      exists g :: g in m.modules && g.name == moduleName && g.domain != Some(a)
  {
    var all := SolutionAssemblies(loaded, rootNamespace);
    InSolution(loaded, rootNamespace, a, ".Modules." + moduleName + "." + extra + ".Domain");
    NestedNameIsDiscovered(all, rootNamespace, a, moduleName, extra);
    DiscoveredModuleHasGroup(loaded, rootNamespace, moduleName);
    NestedNameMissesSlot(all, rootNamespace, a, moduleName, extra);
    var g := GroupOf(all, rootNamespace, moduleName);
    assert g.name == moduleName && g.domain != Some(a);
  }

  lemma NestedNameIsDiscovered(all: seq<Assembly>, rootNamespace: string, a: Assembly, moduleName: string, extra: string)
    requires a in all
    requires !IsBlank(moduleName) && '.' !in moduleName
    requires extra != "" && '.' !in extra
    requires a.name == ModuleAssemblyName(rootNamespace, moduleName, extra + ".Domain")
    ensures IsDiscoveredModule(all, rootNamespace, moduleName)
  {
    assert Join(".", [extra, "Domain"]) == extra + ".Domain";
    ConventionalNameIsDiscovered(all, rootNamespace, a, moduleName, [extra, "Domain"]);
  }

  lemma NestedNameMissesSlot(all: seq<Assembly>, rootNamespace: string, a: Assembly, moduleName: string, extra: string)
    requires extra != ""
    requires a.name == ModuleAssemblyName(rootNamespace, moduleName, extra + ".Domain")
    ensures GroupOf(all, rootNamespace, moduleName).domain != Some(a)
  {
    assert |a.name| != |ModuleAssemblyName(rootNamespace, moduleName, "Domain")|;
  }

  /** The modules are named by the module names, one group per name, in the same order. */
  lemma ModuleGroupNames(loaded: seq<Assembly>, rootNamespace: string)
    ensures var m := Discover(loaded, rootNamespace); var names := ModuleNames(m.all, rootNamespace);
      |m.modules| == |names| && forall k :: 0 <= k < |m.modules| ==> m.modules[k].name == names[k]
  {
  }

  /** The modules come in strict ordinal order of their names. */
  lemma DiscoveredModulesSorted(loaded: seq<Assembly>, rootNamespace: string)
    ensures var m := Discover(loaded, rootNamespace);
      forall i, j :: 0 <= i < j < |m.modules| ==> OrdinalLess(m.modules[i].name, m.modules[j].name)
  {
    ModuleGroupNames(loaded, rootNamespace);
  }

  /** A name is the name of a module group exactly when it is a discovered module name. */
  lemma DiscoveredModulesExactly(loaded: seq<Assembly>, rootNamespace: string, n: string)
    ensures var m := Discover(loaded, rootNamespace);
      (exists k :: 0 <= k < |m.modules| && m.modules[k].name == n) <==> IsDiscoveredModule(m.all, rootNamespace, n)
  {
    var m := Discover(loaded, rootNamespace);
    var names := ModuleNames(m.all, rootNamespace);
    ModuleGroupNames(loaded, rootNamespace);
    if IsDiscoveredModule(m.all, rootNamespace, n) {
      var k :| 0 <= k < |names| && names[k] == n;
      assert m.modules[k].name == n;
    }
    if exists k :: 0 <= k < |m.modules| && m.modules[k].name == n {
      var k :| 0 <= k < |m.modules| && m.modules[k].name == n;
      assert names[k] in names;
    }
  }
}
