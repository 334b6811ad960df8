# Hexa ModuMono core in Dafny

This project models the core of the modular-monolith template `Arch.Hexa.ModuMono` and proves properties of the model. The core has three parts.

**Architecture tests.**
- `AppArchitectureModel.DiscoverFromTestAssembly` is modelled as a function of the assemblies that are already loaded. It keeps the solution assemblies and sorts them into layers by name suffix. It resolves the four BuildingBlocks slots by exact name. It finds the module names in `<root>.Modules.<Module>.<...>` names and resolves each module's slots by exact name.
- Each rule of `AppArchitectureRulesTests` is a verdict over that model: `Pass`, `Fail(message)` or `Threw(message)`.
- Each rule's `foreach` over its subjects is a method with a loop. The method is proved equal to a "first failure" function. Lemmas then say, in the model's own terms, when each rule passes.

**Query side** (`BuildingBlocks.Application` / `BuildingBlocks.Infrastructure` and the two modules).
- `SortParser.Parse` is a loop proved against a specification function. Lemmas cover every branch of the parser, and a round trip proves that rendering a list of fields and parsing it back gives the list.
- The modules' `*Sorting.ToSortExpressions` are one generic loop over a key table. They are proved equal to a specification of what they keep: the recognised fields, or a default ordering.
- The `PagedResult` arithmetic and `GenericReadRepository`'s `GetPagedAsync` / `GetSliceAsync` use 32-bit wrap-around for `(Skip - 1) * Take` and `Take + 1`.
- `ApplyState` builds a filter and an `OrderBy` / `ThenBy` chain. Its meaning is proved as a lexicographic comparison.
- The three query handlers turn a request into a query state, pick the counted or slice path and map the rows to DTOs.

**Domain and API helpers.**
- `Customer` and `Order` are classes whose methods update fields in place.
- The DTO mappings are functions.
- Also modelled:
  - the `LoggerHelper` level table;
  - `AuthorizationHelper.HasScope`;
  - `ValidationsHelper.Validations`, a loop over the errors;
  - the status table and log-level choice of `ApiExceptionHandler.TryHandleAsync`.

Quirks of the code that the model keeps and proves:
- The test class discovers from the root `"Architecture.Pocs.ModularMonolith"` while every project is named `Arch.Hexa.ModuMono.*`. No loaded name starts with that root, so the model is empty and every rule passes (`ArchRules.UnmatchedRootPassesEveryRule`).
- BuildingBlocks assemblies also land in the suffix layer lists. So `BuildingBlocks.Application` depending on `BuildingBlocks.Domain` fails `ApplicationShouldNotReferenceBuildingBlocksDomain`, although the BuildingBlocks rule calls that dependency allowed (`ArchRules.BuildingBlocksApplicationUsingDomainFails`).
- `OrdersSorting` compares the lower-cased key against `"customerId"`, so only `createdat` is ever recognised.
- `OrderLinesSorting` does the same with `"productName"`, `"unitPrice"` and `"orderId"`, so only `quantity` is recognised. A sort by product name therefore gets the default ordering.
- Both facts are proved with `Text.NeverLowered`.
- `GetOrdersQuery.CustomerIdFilter` and `GetOrderLinesQuery.OrderIdFilter` never change a response.
- With `Take == int.MaxValue` the slice fetches `Take + 1 == int.MinValue` rows, which is none. The offset `(Skip - 1) * Take` wraps, so page 65537 of size 65536 is page 1.

Modules: `Wrappers`, `Int32`, `Values`, `Linq` and `Text` hold the .NET operations the code relies on. The others are:
- `ArchModel` and `ArchRules`;
- `Querying`, `ReadRepository`, `Sorting` and `ListHandler`;
- `CustomersDomain` and `CustomersApplication`;
- `OrdersDomain` and `OrdersApplication`;
- `Api`.

## Model

| member | source | states |
|---|---|---|
| ArchModel.LayerSuffixesExclusive | Arch.Hexa.ModuMono.ArchTests/AppModel/AppArchitectureModel.cs:69-82 | No name carries two of the `.Domain`, `.Application`, `.Infrastructure` and Api suffixes, so the order of the checks never matters |
| ArchModel.GetLayerIsBySuffix | Arch.Hexa.ModuMono.ArchTests/AppModel/AppArchitectureModel.cs:69-82 | A name is in a layer exactly when it ends with that layer's suffix (ordinal, case-sensitive); Api takes `.Api`, `.RestApi`, `.Graphql`, `.GraphQL` |
| ArchModel.ModuleGroup.Assemblies | Arch.Hexa.ModuMono.ArchTests/AppArchitectureRulesTests.cs:579-582 | Holds exactly the present slots of a module |
| ArchModel.AppArchitectureModel.BuildingBlocksAll | Arch.Hexa.ModuMono.ArchTests/AppModel/AppArchitectureModel.cs:24-28 | At most four entries, exactly the non-null BuildingBlocks slots |
| ArchModel.AppArchitectureModel.ModuleAssemblies | Arch.Hexa.ModuMono.ArchTests/AppModel/AppArchitectureModel.cs:33-38 | No duplicates; exactly the present slots of every module |
| ArchModel.SolutionAssemblies | Arch.Hexa.ModuMono.ArchTests/AppModel/AppArchitectureModel.cs:61-66 | No duplicates; an assembly is in it exactly when it is loaded, not dynamic and its name starts with the root namespace |
| ArchModel.InLayer | Arch.Hexa.ModuMono.ArchTests/AppModel/AppArchitectureModel.cs:84-87 | A layer's list holds exactly the assemblies of `all` that `GetLayer` puts in that layer |
| ArchModel.InLayerKeepsOrder | Arch.Hexa.ModuMono.ArchTests/AppModel/AppArchitectureModel.cs:84-87 | A layer's list is the in-layer assemblies of `all` at increasing positions, every in-layer position included |
| ArchModel.FindExact | Arch.Hexa.ModuMono.ArchTests/AppModel/AppArchitectureModel.cs:90-91 | None exactly when no assembly has that name; otherwise the first assembly with exactly that name |
| ArchModel.GetModuleName | Arch.Hexa.ModuMono.ArchTests/AppModel/AppArchitectureModel.cs:99-108 | A name is found exactly when `<root>.Modules.` occurs and at least two non-empty dot-separated segments follow its first occurrence; it is the first of them, non-empty and dot-free |
| ArchModel.ModuleNameAfterPrefix | Arch.Hexa.ModuMono.ArchTests/AppModel/AppArchitectureModel.cs:99-108 | With anything before the token that does not itself contain it, `<prefix><root>.Modules.<m>.<segments>` yields `m` |
| ArchModel.SingleSegmentNamesNoModule | Arch.Hexa.ModuMono.ArchTests/AppModel/AppArchitectureModel.cs:99-108 | `<root>.Modules.<s>` and `<root>.Modules.<s>.`, one segment after the token, yield no module |
| ArchModel.ModuleNameOfConventionalName | Arch.Hexa.ModuMono.ArchTests/AppModel/AppArchitectureModel.cs:99-108 | `<root>.Modules.<m>.<s1>...<sk>`, with k >= 1 non-empty dot-free segments, yields `m` |
| ArchModel.FoundModuleNames | Arch.Hexa.ModuMono.ArchTests/AppModel/AppArchitectureModel.cs:113-118 | Yields exactly the names of discovered modules: non-blank, not BuildingBlocks, with a non-blank module name |
| ArchModel.ModuleNames | Arch.Hexa.ModuMono.ArchTests/AppModel/AppArchitectureModel.cs:113-121 | Strictly sorted in ordinal order (so distinct), holding exactly the discovered module names |
| ArchModel.ModuleApi | Arch.Hexa.ModuMono.ArchTests/AppModel/AppArchitectureModel.cs:132-135 | The Api slot is the first assembly named `<root>.Modules.<m>.Api` if one exists, else the first `RestApi`, else `Graphql`, else `GraphQL`, else none |
| ArchModel.GroupOf | Arch.Hexa.ModuMono.ArchTests/AppModel/AppArchitectureModel.cs:123-139 | A module group carries its name and the Api slot `ModuleApi` chooses; each of the Application, Domain and Infrastructure slots is an assembly named `<root>.Modules.<m>.<layer>` exactly, and is empty exactly when no assembly has that name |
| ArchModel.Discover | Arch.Hexa.ModuMono.ArchTests/AppModel/AppArchitectureModel.cs:52-159 | The model keeps the root and the solution assemblies, and has one group per module name, in order |
| ArchModel.DiscoveredLayers | Arch.Hexa.ModuMono.ArchTests/AppModel/AppArchitectureModel.cs:84-87 | The four layer lists hold exactly the solution assemblies with the layer's suffix and are pairwise disjoint |
| ArchModel.BuildingBlocksNameNotBlank | Arch.Hexa.ModuMono.ArchTests/AppModel/AppArchitectureModel.cs:93-96 | No conventional BuildingBlocks name is blank |
| ArchModel.InLayerBySuffix | Arch.Hexa.ModuMono.ArchTests/AppModel/AppArchitectureModel.cs:84-87 | An assembly whose name has a layer's suffix is in that layer's list |
| ArchModel.BuildingBlocksSlot | Arch.Hexa.ModuMono.ArchTests/AppModel/AppArchitectureModel.cs:90-96 | A slot is empty exactly when no assembly has the conventional name; a filled slot has that name, lies in its layer's list and is no module candidate |
| ArchModel.DiscoveredBuildingBlock | Arch.Hexa.ModuMono.ArchTests/AppModel/AppArchitectureModel.cs:89-96 | The discovered model's BuildingBlocks slots are those exact-name lookups over the solution assemblies |
| ArchModel.UnmatchedRootGivesEmptyModel | Arch.Hexa.ModuMono.ArchTests/AppModel/AppArchitectureModel.cs:61-66 | A root that prefixes no loaded static name gives a model with no assemblies, no slots and no modules |
| ArchModel.ModuleNamesAreCandidates | Arch.Hexa.ModuMono.ArchTests/AppModel/AppArchitectureModel.cs:110-116 | A `<root>.Modules.` name is never blank and never starts like a BuildingBlocks name |
| ArchModel.ConventionalNameIsCandidate | Arch.Hexa.ModuMono.ArchTests/AppModel/AppArchitectureModel.cs:110-116 | A conventionally built module name passes both filters before `GetModuleName` |
| ArchModel.ConventionalNameIsDiscovered | Arch.Hexa.ModuMono.ArchTests/AppModel/AppArchitectureModel.cs:113-121 | A solution assembly named by the convention makes its module discovered |
| ArchModel.InSolution | Arch.Hexa.ModuMono.ArchTests/AppModel/AppArchitectureModel.cs:61-66 | A loaded static assembly whose name starts with the root is a solution assembly |
| ArchModel.DiscoveredModuleHasGroup | Arch.Hexa.ModuMono.ArchTests/AppModel/AppArchitectureModel.cs:129-139 | Every discovered module name has its group, built by exact names, in the model |
| ArchModel.ConventionalAssemblyFillsItsSlot | Arch.Hexa.ModuMono.ArchTests/AppModel/AppArchitectureModel.cs:123-139 | A loaded `<root>.Modules.<m>.<Layer>` assembly makes `m` a module whose slot is filled by an assembly of that name |
| ArchModel.LayerNameIsDiscovered | Arch.Hexa.ModuMono.ArchTests/AppModel/AppArchitectureModel.cs:113-121 | A `<root>.Modules.<m>.<Layer>` assembly makes `m` discovered |
| ArchModel.FilledSlot | Arch.Hexa.ModuMono.ArchTests/AppModel/AppArchitectureModel.cs:123-138 | An assembly with the exact slot name fills the slot with an assembly of that name |
| ArchModel.NestedAssemblyIsNotASlot | Arch.Hexa.ModuMono.ArchTests/AppModel/AppArchitectureModel.cs:123-138 | `<root>.Modules.<m>.<x>.Domain` discovers module `m` but never fills its Domain slot |
| ArchModel.NestedNameIsDiscovered | Arch.Hexa.ModuMono.ArchTests/AppModel/AppArchitectureModel.cs:99-121 | A nested module name still discovers module `m` |
| ArchModel.NestedNameMissesSlot | Arch.Hexa.ModuMono.ArchTests/AppModel/AppArchitectureModel.cs:123-137 | A nested name is not the Domain slot of `m` |
| ArchModel.ModuleGroupNames | Arch.Hexa.ModuMono.ArchTests/AppModel/AppArchitectureModel.cs:129-139 | Module `k` is named by module name `k` |
| ArchModel.DiscoveredModulesSorted | Arch.Hexa.ModuMono.ArchTests/AppModel/AppArchitectureModel.cs:119-120 | Module names come in strict ordinal order |
| ArchModel.DiscoveredModulesExactly | Arch.Hexa.ModuMono.ArchTests/AppModel/AppArchitectureModel.cs:113-139 | A name names a module group exactly when it is a discovered module name |
| ArchRules.FailureMessageListsFailingTypes | Arch.Hexa.ModuMono.ArchTests/AppArchitectureRulesTests.cs:28-32 | A success gives the empty text; a failure's names can be split back from its message; a failure without names gives the fixed text |
| ArchRules.FirstFailurePasses | Arch.Hexa.ModuMono.ArchTests/AppArchitectureRulesTests.cs:75-84 | A loop of assertions passes exactly when every element passes |
| ArchRules.FirstFailurePassesOnMembers | Arch.Hexa.ModuMono.ArchTests/AppArchitectureRulesTests.cs:75-84 | The same in terms of membership |
| ArchRules.FirstFailureIsFirst | Arch.Hexa.ModuMono.ArchTests/AppArchitectureRulesTests.cs:75-84 | A failing loop reports the verdict of the first element that does not pass, and every earlier element passed |
| ArchRules.Scan | Arch.Hexa.ModuMono.ArchTests/AppArchitectureRulesTests.cs:75-84 | The `foreach` with `Assert.True` returns the first-failure verdict |
| ArchRules.DependencyResult | Arch.Hexa.ModuMono.ArchTests/AppArchitectureRulesTests.cs:77-80 | Success exactly when no type of the assembly depends on a forbidden name; the failing names are exactly the offending types' names |
| ArchRules.DependencyVerdict | Arch.Hexa.ModuMono.ArchTests/AppArchitectureRulesTests.cs:82-83 | Passes exactly when no type depends on a forbidden name; a failure carries the heading, a new line and `FailureMessage` |
| ArchRules.OutsideLayer | Arch.Hexa.ModuMono.ArchTests/AppArchitectureRulesTests.cs:427-431 | Exactly the solution assemblies outside the layer list, minus the test assembly and `.ArchTests` names |
| ArchRules.ModuleLikeNames | Arch.Hexa.ModuMono.ArchTests/AppArchitectureRulesTests.cs:770-774 | Exactly the solution names that contain `.Modules.` |
| ArchRules.RunDependencyRule | Arch.Hexa.ModuMono.ArchTests/AppArchitectureRulesTests.cs:68-567 | Running a dependency rule (early return, then the loop) gives its planned verdict |
| ArchRules.CheckMeaning | Arch.Hexa.ModuMono.ArchTests/AppArchitectureRulesTests.cs:106-121 | A "should not reference" loop passes exactly when no subject type depends on a forbidden name, and it never throws |
| ArchRules.DependencyRuleMeaning | Arch.Hexa.ModuMono.ArchTests/AppArchitectureRulesTests.cs:68-567 | Every dependency rule passes exactly when it returns early or its check holds, and none throws |
| ArchRules.BlankBuildingBlocksDomainSkips | Arch.Hexa.ModuMono.ArchTests/AppArchitectureRulesTests.cs:71-73 | The three rules against BuildingBlocks.Domain return early on a missing or blank name |
| ArchRules.BlankBuildingBlocksApplicationSkips | Arch.Hexa.ModuMono.ArchTests/AppArchitectureRulesTests.cs:213-215 | The rule against BuildingBlocks.Application returns early on a missing or blank name |
| ArchRules.WithinBlankNamesSkips | Arch.Hexa.ModuMono.ArchTests/AppArchitectureRulesTests.cs:480-490 | A BuildingBlocks-internal rule whose forbidden names are all missing or blank returns early |
| ArchRules.BlankBuildingBlocksInfrastructureSkips | Arch.Hexa.ModuMono.ArchTests/AppArchitectureRulesTests.cs:90-92 | The four rules against BuildingBlocks.Infrastructure return early on a missing or blank name |
| ArchRules.BuildingBlocksApiRuleSkips | Arch.Hexa.ModuMono.ArchTests/AppArchitectureRulesTests.cs:557-558 | BuildingBlocks.Api's own rule returns early without a BuildingBlocks.Infrastructure name |
| ArchRules.BlankBuildingBlocksApiSkips | Arch.Hexa.ModuMono.ArchTests/AppArchitectureRulesTests.cs:194-196 | The four rules against BuildingBlocks.Api return early on a missing or blank name |
| ArchRules.BuildingBlocksInfrastructureRuleSkips | Arch.Hexa.ModuMono.ArchTests/AppArchitectureRulesTests.cs:537-538 | BuildingBlocks.Infrastructure's own rule returns early without a BuildingBlocks.Api name |
| ArchRules.BuildingBlocksDomainRuleSkips | Arch.Hexa.ModuMono.ArchTests/AppArchitectureRulesTests.cs:480-490 | BuildingBlocks.Domain's own rule returns early when every other BuildingBlocks name is missing or blank |
| ArchRules.BuildingBlocksApplicationRuleForbids | Arch.Hexa.ModuMono.ArchTests/AppArchitectureRulesTests.cs:502-527 | BuildingBlocks.Application's rule forbids only the non-blank Infrastructure and Api names, never the Domain one |
| ArchRules.OnlyApisRuleSubjects | Arch.Hexa.ModuMono.ArchTests/AppArchitectureRulesTests.cs:419-443 | With a BuildingBlocks.Api name, the rule checks exactly the non-Api solution assemblies except the tests, against that name alone |
| ArchRules.OnlyInfrastructureRuleSubjects | Arch.Hexa.ModuMono.ArchTests/AppArchitectureRulesTests.cs:446-470 | With a BuildingBlocks.Infrastructure name, the rule checks exactly the non-Infrastructure solution assemblies except the tests, against that name alone |
| ArchRules.StrictRuleForbidsModuleNames | Arch.Hexa.ModuMono.ArchTests/AppArchitectureRulesTests.cs:767-789 | The strict rule checks every BuildingBlocks assembly against exactly the `.Modules.` names, and returns early when there is none |
| ArchRules.OtherModuleSlots | Arch.Hexa.ModuMono.ArchTests/AppArchitectureRulesTests.cs:584-587 | Exactly the present slots of modules named differently |
| ArchRules.OtherModuleAssemblyNames | Arch.Hexa.ModuMono.ArchTests/AppArchitectureRulesTests.cs:584-590 | Distinct names, exactly those of the other modules' assemblies |
| ArchRules.ModulesShouldBeIsolated | Arch.Hexa.ModuMono.ArchTests/AppArchitectureRulesTests.cs:574-602 | The nested loops give the first failing module's verdict |
| ArchRules.ModuleIsolationPasses | Arch.Hexa.ModuMono.ArchTests/AppArchitectureRulesTests.cs:592-600 | One module's assertions pass exactly when it is isolated |
| ArchRules.IsolationMeaning | Arch.Hexa.ModuMono.ArchTests/AppArchitectureRulesTests.cs:574-602 | Isolation passes exactly when every module is isolated from the others |
| ArchRules.DependsOnOtherModule | Arch.Hexa.ModuMono.ArchTests/AppArchitectureRulesTests.cs:584-600 | A type depending on another module's assembly name makes its module not isolated |
| ArchRules.CrossModuleDependencyFails | Arch.Hexa.ModuMono.ArchTests/AppArchitectureRulesTests.cs:574-602 | A dependency between differently named modules fails the isolation rule |
| ArchRules.PortShapeResult | Arch.Hexa.ModuMono.ArchTests/AppArchitectureRulesTests.cs:614-631 | Success exactly when every type named like a repository (or client or gateway) is an interface |
| ArchRules.PortVerdict | Arch.Hexa.ModuMono.ArchTests/AppArchitectureRulesTests.cs:611-636 | One assembly passes exactly when every repository, client or gateway type is an interface; the repository failure is reported first, and otherwise the client/gateway failure is `<name> (Client/Gateway ports)`, a new line and the offending types |
| ArchRules.RepositoryAndClientPortsMustBeInterfaces | Arch.Hexa.ModuMono.ArchTests/AppArchitectureRulesTests.cs:609-637 | The loop over Domains then Applications gives the first-failure verdict |
| ArchRules.PortsRuleMeaning | Arch.Hexa.ModuMono.ArchTests/AppArchitectureRulesTests.cs:609-637 | The ports rule passes exactly when every such type of a Domain or Application assembly is an interface |
| ArchRules.ToDictionary | Arch.Hexa.ModuMono.ArchTests/AppArchitectureRulesTests.cs:644-647 | A table exactly when the names are distinct, mapping each name to a type of that name; otherwise a name that occurs twice |
| ArchRules.Adapters | Arch.Hexa.ModuMono.ArchTests/AppArchitectureRulesTests.cs:653-659 | Exactly the concrete classes named `...Repository`, `...Client` or `...Gateway` |
| ArchRules.AdapterVerdict | Arch.Hexa.ModuMono.ArchTests/AppArchitectureRulesTests.cs:663-675 | Passes exactly when `I<Name>` is a port and the adapter implements it; "not found" is reported before "does not implement", and each failure carries its message with the Infrastructure name, the adapter and the interface |
| ArchRules.InfrastructureAdaptersMustImplementPorts | Arch.Hexa.ModuMono.ArchTests/AppArchitectureRulesTests.cs:640-678 | The dictionary build, then the nested loops, give the rule's verdict |
| ArchRules.AdaptersNeverThrow | Arch.Hexa.ModuMono.ArchTests/AppArchitectureRulesTests.cs:649-677 | The loops over a built table never throw |
| ArchRules.AdapterRuleThrowsOnDuplicates | Arch.Hexa.ModuMono.ArchTests/AppArchitectureRulesTests.cs:644-647 | The rule throws exactly when two port interfaces share a simple name, with the duplicate-key message |
| ArchRules.InfrastructureAdaptersPass | Arch.Hexa.ModuMono.ArchTests/AppArchitectureRulesTests.cs:661-676 | One Infrastructure assembly passes exactly when every adapter implements its port |
| ArchRules.AdapterRuleMeaning | Arch.Hexa.ModuMono.ArchTests/AppArchitectureRulesTests.cs:640-678 | Without duplicate port names, the rule passes exactly when every adapter of every Infrastructure assembly implements its port |
| ArchRules.DbContextOffenders | Arch.Hexa.ModuMono.ArchTests/AppArchitectureRulesTests.cs:707-711 | Empty exactly when the assembly declares no concrete DbContext |
| ArchRules.ProductionAssemblies | Arch.Hexa.ModuMono.ArchTests/AppArchitectureRulesTests.cs:34-45 | Exactly the solution assemblies other than the test assembly and names ending `.Tests` / `.ArchTests` |
| ArchRules.OutsideInfrastructureVerdict | Arch.Hexa.ModuMono.ArchTests/AppArchitectureRulesTests.cs:707-715 | Passes exactly when the assembly declares no concrete DbContext |
| ArchRules.DbContextMustLiveOnlyInInfrastructure | Arch.Hexa.ModuMono.ArchTests/AppArchitectureRulesTests.cs:700-717 | The loop over production assemblies outside Infrastructure gives the first-failure verdict |
| ArchRules.DbContextRuleMeaning | Arch.Hexa.ModuMono.ArchTests/AppArchitectureRulesTests.cs:700-717 | The rule passes exactly when no production assembly outside Infrastructure declares a concrete DbContext |
| ArchRules.EachModuleKeepsDbContextInInfrastructure | Arch.Hexa.ModuMono.ArchTests/AppArchitectureRulesTests.cs:724-760 | The loop with its two `continue`s gives the first failing module's verdict |
| ArchRules.ModuleDbContextPasses | Arch.Hexa.ModuMono.ArchTests/AppArchitectureRulesTests.cs:727-759 | One module passes exactly when, if its Infrastructure declares a DbContext, its Domain, Application and Api declare none |
| ArchRules.ModuleDbContextRuleMeaning | Arch.Hexa.ModuMono.ArchTests/AppArchitectureRulesTests.cs:724-760 | The rule passes exactly when every module keeps its DbContext in its Infrastructure assembly |
| ArchRules.FirstFailureNeverThrows | Arch.Hexa.ModuMono.ArchTests/AppArchitectureRulesTests.cs:75-84 | A loop of checks that never throw never throws |
| ArchRules.EmptyModelPassesEveryRule | Arch.Hexa.ModuMono.ArchTests/AppArchitectureRulesTests.cs:68-789 | On an empty model every rule passes |
| ArchRules.UnmatchedRootPassesEveryRule | Arch.Hexa.ModuMono.ArchTests/AppArchitectureRulesTests.cs:10 | With a root that no loaded name starts with, such as the test's, every rule family passes: the layer references, the DbContext placement, the ports, the adapters, the outside-Infrastructure checks and the module isolation |
| ArchRules.ApplicationUsingBuildingBlocksDomainFails | Arch.Hexa.ModuMono.ArchTests/AppArchitectureRulesTests.cs:316-332 | An Application assembly with a type depending on BuildingBlocks.Domain fails the rule |
| ArchRules.BuildingBlocksApplicationUsingDomainFails | Arch.Hexa.ModuMono.ArchTests/AppArchitectureRulesTests.cs:502-508 | BuildingBlocks.Application, though allowed to use BuildingBlocks.Domain, fails `ApplicationShouldNotReferenceBuildingBlocksDomain` when it does |
| Querying.Fields | Arch.Hexa.ModuMono.BuildingBlocks.Application/Querying/SortParser.cs:14-20 | One field per part, in order |
| Querying.Parse | Arch.Hexa.ModuMono.BuildingBlocks.Application/Querying/SortParser.cs:5-23 | Returns the specified list of fields: none for a blank sort, else one per trimmed comma part |
| Querying.FieldsOfParts | Arch.Hexa.ModuMono.BuildingBlocks.Application/Querying/SortParser.cs:14-20 | The loop over the parts returns one field per part, in order |
| Querying.FieldOfPart | Arch.Hexa.ModuMono.BuildingBlocks.Application/Querying/SortParser.cs:16-18 | A leading `-` is removed, exactly one character, and makes the field descending; other parts are kept with the global flag |
| Querying.ParseFields | Arch.Hexa.ModuMono.BuildingBlocks.Application/Querying/SortParser.cs:9-20 | One field per non-empty trimmed comma part, in input order |
| Querying.ParseDirections | Arch.Hexa.ModuMono.BuildingBlocks.Application/Querying/SortParser.cs:16-19 | With the flag every field is descending; without it exactly the `-` parts are |
| Querying.SingleFieldParses | Arch.Hexa.ModuMono.BuildingBlocks.Application/Querying/SortParser.cs:9-20 | A single plain field name parses to that field alone |
| Querying.BlankSortParsesToNothing | Arch.Hexa.ModuMono.BuildingBlocks.Application/Querying/SortParser.cs:9-10 | A missing, empty or white-space sort gives no field |
| Querying.LoneDashGivesEmptyField | Arch.Hexa.ModuMono.BuildingBlocks.Application/Querying/SortParser.cs:16-17 | `"-"` gives one descending field with an empty name |
| Querying.ParseRender | Arch.Hexa.ModuMono.BuildingBlocks.Application/Querying/SortParser.cs:5-23 | Parsing the rendering of a list of clean fields gives the list back |
| Querying.DefaultQueryState | Arch.Hexa.ModuMono.BuildingBlocks.Application/Querying/QueryState.cs:7-11 | Skip 1, Take 20, no criteria, no sort, no includes |
| Querying.Filter | Arch.Hexa.ModuMono.BuildingBlocks.Infrastructure/Persistence/Repositories/GenericReadRepository.cs:264-265 | A row is kept exactly when it is in the source and there is no criteria or the criteria holds |
| Querying.CeilDivInRange | Arch.Hexa.ModuMono.BuildingBlocks.Application/Querying/PagedResult.cs:10 | The rounded-up quotient of two `int`s is an `int`, so the cast cannot overflow |
| Querying.PagedResult.TotalPages | Arch.Hexa.ModuMono.BuildingBlocks.Application/Querying/PagedResult.cs:10 | 0 without a positive size; otherwise `(r-1)*size < total <= r*size` |
| Querying.HasNextPageMeaning | Arch.Hexa.ModuMono.BuildingBlocks.Application/Querying/PagedResult.cs:10-12 | With a positive size there is a next page exactly when `PageNumber * PageSize < TotalCount` |
| Querying.NoNextPageWithoutSize | Arch.Hexa.ModuMono.BuildingBlocks.Application/Querying/PagedResult.cs:10-12 | Without a positive size there are 0 pages and no next page for any page number >= 0 |
| Querying.TotalPagesIsFewest | Arch.Hexa.ModuMono.BuildingBlocks.Application/Querying/PagedResult.cs:10 | `TotalPages` is the least number of pages that hold every row |
| ReadRepository.ApplyState | Arch.Hexa.ModuMono.BuildingBlocks.Infrastructure/Persistence/Repositories/GenericReadRepository.cs:258-288 | The loop with `firstOrder` gives the filter plus the sort list, first as `OrderBy`, the rest as `ThenBy` |
| ReadRepository.CompareTiesIffNoKeySeparates | Arch.Hexa.ModuMono.BuildingBlocks.Infrastructure/Persistence/Repositories/GenericReadRepository.cs:267-285 | Two rows tie exactly when no key separates them |
| ReadRepository.FirstSeparatingKeyDecides | Arch.Hexa.ModuMono.BuildingBlocks.Infrastructure/Persistence/Repositories/GenericReadRepository.cs:267-285 | Otherwise the first separating key decides, in its own direction |
| ReadRepository.ThenByBreaksTies | Arch.Hexa.ModuMono.BuildingBlocks.Infrastructure/Persistence/Repositories/GenericReadRepository.cs:278-284 | `ThenBy` keeps every decided comparison and breaks only ties |
| ReadRepository.CompareAntisymmetric | Arch.Hexa.ModuMono.BuildingBlocks.Infrastructure/Persistence/Repositories/GenericReadRepository.cs:267-285 | With antisymmetric keys the ordering is antisymmetric |
| ReadRepository.SkipRows | Arch.Hexa.ModuMono.BuildingBlocks.Infrastructure/Persistence/Repositories/GenericReadRepository.cs:21-24 | 0 without a positive `Take`; `(Skip-1)*Take` when that fits in an `int` |
| ReadRepository.PageOf | Arch.Hexa.ModuMono.BuildingBlocks.Infrastructure/Persistence/Repositories/GenericReadRepository.cs:21-38 | Echoes the page numbers, counts every row, returns all rows without a positive `Take`, else the window after the skipped rows |
| ReadRepository.SliceOf | Arch.Hexa.ModuMono.BuildingBlocks.Infrastructure/Persistence/Repositories/GenericReadRepository.cs:47-82 | Echoes the page numbers; all rows and no next page without a positive `Take`; else a page of at most `Take` rows and a next page exactly when more than `Take` rows followed the skip |
| ReadRepository.GetPaged | Arch.Hexa.ModuMono.BuildingBlocks.Infrastructure/Persistence/Repositories/GenericReadRepository.cs:15-39 | Returns the page of the rows the database yields for the applied state |
| ReadRepository.GetSlice | Arch.Hexa.ModuMono.BuildingBlocks.Infrastructure/Persistence/Repositories/GenericReadRepository.cs:41-83 | Returns the slice of the rows the database yields for the applied state |
| ReadRepository.SliceAgreesWithPage | Arch.Hexa.ModuMono.BuildingBlocks.Infrastructure/Persistence/Repositories/GenericReadRepository.cs:15-83 | Without wrap-around, the slice has the page's items, and its next-page flag is the page's |
| ReadRepository.RowOnItsPage | Arch.Hexa.ModuMono.BuildingBlocks.Infrastructure/Persistence/Repositories/GenericReadRepository.cs:24-29 | Row `i` is item `i % Take` of page `i / Take + 1` |
| ReadRepository.WrappedOffsetServesFirstPage | Arch.Hexa.ModuMono.BuildingBlocks.Infrastructure/Persistence/Repositories/GenericReadRepository.cs:24 | The 32-bit offset of page 65537 of size 65536 wraps to 0, so that page is page 1 |
| ReadRepository.LargestPageSizeSliceIsEmpty | Arch.Hexa.ModuMono.BuildingBlocks.Infrastructure/Persistence/Repositories/GenericReadRepository.cs:65-70 | With `Take == int.MaxValue`, `Take + 1` wraps negative, so the slice is empty with no next page |
| Sorting.Recognised | Arch.Hexa.ModuMono.Modules.Customers.Application/Queries/Common/CustomersSorting.cs:24-60 | No more orderings than fields |
| Sorting.RecognisedEmptyIff | Arch.Hexa.ModuMono.Modules.Customers.Application/Queries/Common/CustomersSorting.cs:24-62 | The list stays empty exactly when the table knows no field |
| Sorting.RecognisedMembers | Arch.Hexa.ModuMono.Modules.Customers.Application/Queries/Common/CustomersSorting.cs:24-60 | Every ordering comes from a field with its parsed direction, and every known field gives one |
| Sorting.RecognisedAppend | Arch.Hexa.ModuMono.Modules.Customers.Application/Queries/Common/CustomersSorting.cs:24-60 | Input order is kept, duplicates included |
| Sorting.SortSpec | Arch.Hexa.ModuMono.Modules.Customers.Application/Queries/Common/CustomersSorting.cs:8-72 | Never empty: the recognised orderings or the default alone |
| Sorting.NothingRecognisedFallsBack | Arch.Hexa.ModuMono.Modules.Customers.Application/Queries/Common/CustomersSorting.cs:13-22 | With nothing recognised, the default alone |
| Sorting.SomethingRecognisedIsKept | Arch.Hexa.ModuMono.Modules.Customers.Application/Queries/Common/CustomersSorting.cs:62-69 | With something recognised, the recognised orderings and no default |
| Sorting.ToSortExpressions | Arch.Hexa.ModuMono.Modules.Customers.Application/Queries/Common/CustomersSorting.cs:8-72 | The loop returns the specified sort |
| ListHandler.ResponseFor | Arch.Hexa.ModuMono.Modules.Customers.Application/Handlers/GetCustomersQueryHandler.cs:54-93 | Echoes the page numbers; totals exactly when requested; the paged path copies the page's flags and totals; the slice path copies the slice's flags; the items are the rows mapped in order |
| ListHandler.SameQuerySameResponse | Arch.Hexa.ModuMono.Modules.Customers.Application/Handlers/GetCustomersQueryHandler.cs:19-93 | Two states with the same numbers, sort, includes and filtered rows give the same response |
| ListHandler.Respond | Arch.Hexa.ModuMono.Modules.Customers.Application/Handlers/GetCustomersQueryHandler.cs:44-93 | The sort loop and the two paths give the specified response |
| CustomersDomain.Customer.constructor | Arch.Hexa.ModuMono.Modules.Customers.Domain/Customer.cs:8-15 | Sets every field to its argument, the creation time given |
| CustomersDomain.Customer.Activate | Arch.Hexa.ModuMono.Modules.Customers.Domain/Customer.cs:23 | From any status to Active; nothing else changes |
| CustomersDomain.Customer.Deactivate | Arch.Hexa.ModuMono.Modules.Customers.Domain/Customer.cs:24 | From any status to Inactive; nothing else changes |
| CustomersApplication.DomainToDto | Arch.Hexa.ModuMono.Modules.Customers.Application/Mapping/CustomersMapping.cs:8-18 | Copies every field |
| CustomersApplication.DomainToDtos | Arch.Hexa.ModuMono.Modules.Customers.Application/Mapping/CustomersMapping.cs:21-24 | One DTO per customer, in order |
| CustomersApplication.DtoRoundTrip | Arch.Hexa.ModuMono.Modules.Customers.Application/Mapping/CustomersMapping.cs:8-18 | The customer can be read back from its DTO |
| CustomersApplication.DomainToDtosInjective | Arch.Hexa.ModuMono.Modules.Customers.Application/Mapping/CustomersMapping.cs:21-24 | Equal DTO lists come from equal customer lists |
| CustomersApplication.KeyTableInverse | Arch.Hexa.ModuMono.Modules.Customers.Application/Queries/Common/CustomersSorting.cs:28-59 | The table knows exactly `name`, `email`, `status` and `createdat`, each for its key |
| CustomersApplication.FieldMatchesInAnyCase | Arch.Hexa.ModuMono.Modules.Customers.Application/Queries/Common/CustomersSorting.cs:26-59 | A field is recognised in any letter case, keeping its direction |
| CustomersApplication.ToSortExpressions | Arch.Hexa.ModuMono.Modules.Customers.Application/Queries/Common/CustomersSorting.cs:8-72 | The specified sort with the CreatedAt-descending default; never empty |
| CustomersApplication.StateOf | Arch.Hexa.ModuMono.Modules.Customers.Application/Handlers/GetCustomersQueryHandler.cs:19-52 | Skip is the page number and Take the page size; no criteria exactly without a filter; the customers' sort |
| CustomersApplication.NoFilterMatchesEveryone | Arch.Hexa.ModuMono.Modules.Customers.Application/Handlers/GetCustomersQueryHandler.cs:28-42 | Without a filter every customer matches, so leaving out the criteria loses nothing |
| CustomersApplication.FilteredCustomers | Arch.Hexa.ModuMono.Modules.Customers.Application/Handlers/GetCustomersQueryHandler.cs:37-44 | A customer is considered exactly when it matches every given filter |
| CustomersApplication.Handle | Arch.Hexa.ModuMono.Modules.Customers.Application/Handlers/GetCustomersQueryHandler.cs:16-94 | The response for the state of the query, mapped by `DomainToDto` |
| OrdersDomain.LinesTotal | Arch.Hexa.ModuMono.Modules.Orders.Domain/Order.cs:19 | Never negative over accepted lines |
| OrdersDomain.LinesTotalAppend | Arch.Hexa.ModuMono.Modules.Orders.Domain/Order.cs:19 | The total of a concatenation is the sum of the totals |
| OrdersDomain.Order.Total | Arch.Hexa.ModuMono.Modules.Orders.Domain/Order.cs:19 | Never negative while every line was accepted by `AddLine` |
| OrdersDomain.Order.constructor | Arch.Hexa.ModuMono.Modules.Orders.Domain/Order.cs:9-14 | The given ids and time, no lines, total 0 |
| OrdersDomain.Order.AddLine | Arch.Hexa.ModuMono.Modules.Orders.Domain/Order.cs:25-31 | A non-positive quantity, then a negative price, is rejected with the lines unchanged; otherwise one line is appended and the total grows by its amount; validity is kept |
| OrdersApplication.LineToDto | Arch.Hexa.ModuMono.Modules.Orders.Application/Mapping/OrdersMapping.cs:25-34 | Copies id, product name, quantity and price |
| OrdersApplication.LineToDtoForgetsOrderId | Arch.Hexa.ModuMono.Modules.Orders.Application/Mapping/OrdersMapping.cs:27-33 | The DTO does not depend on the line's order id |
| OrdersApplication.LinesToDtos | Arch.Hexa.ModuMono.Modules.Orders.Application/Mapping/OrdersMapping.cs:36-39 | One DTO per line, in order |
| OrdersApplication.DomainToDto | Arch.Hexa.ModuMono.Modules.Orders.Application/Mapping/OrdersMapping.cs:8-18 | Copies id, customer id and time; the lines mapped in order; the order's total |
| OrdersApplication.DomainToDtos | Arch.Hexa.ModuMono.Modules.Orders.Application/Mapping/OrdersMapping.cs:20-23 | One DTO per order, in order |
| OrdersApplication.DtoTotalMatchesLines | Arch.Hexa.ModuMono.Modules.Orders.Application/Mapping/OrdersMapping.cs:15-16 | An order DTO's total is the sum over its own line DTOs |
| OrdersApplication.LinesTotalOfDtos | Arch.Hexa.ModuMono.Modules.Orders.Application/Mapping/OrdersMapping.cs:15-16 | The total over lines equals the total over their DTOs |
| OrdersApplication.OrdersToSortExpressions | Arch.Hexa.ModuMono.Modules.Orders.Application/Queries/Common/OrdersSorting.cs:8-55 | The specified sort with the CreatedAt-descending default; never empty |
| OrdersApplication.OnlyCreatedAtSortsOrders | Arch.Hexa.ModuMono.Modules.Orders.Application/Queries/Common/OrdersSorting.cs:26-43 | Only a field whose lower-cased name is `createdat` is recognised; the `customerId` branch is unreachable |
| OrdersApplication.RecognisedOrderFields | Arch.Hexa.ModuMono.Modules.Orders.Application/Queries/Common/OrdersSorting.cs:24-44 | One CreatedAt ordering per `createdat` field |
| OrdersApplication.OrdersSortLength | Arch.Hexa.ModuMono.Modules.Orders.Application/Queries/Common/OrdersSorting.cs:8-55 | The length is the number of `createdat` fields, or 1 when there are none, and every entry orders by CreatedAt |
| OrdersApplication.OrderSortOfFields | Arch.Hexa.ModuMono.Modules.Orders.Application/Queries/Common/OrdersSorting.cs:13-55 | The same for a given parsed list |
| OrdersApplication.LinesToSortExpressions | Arch.Hexa.ModuMono.Modules.Orders.Application/Queries/Common/OrderLinesSorting.cs:8-72 | The specified sort with the ProductName-descending default; never empty |
| OrdersApplication.OnlyQuantitySortsLines | Arch.Hexa.ModuMono.Modules.Orders.Application/Queries/Common/OrderLinesSorting.cs:26-60 | Only a field whose lower-cased name is `quantity` is recognised; the other three branches are unreachable |
| OrdersApplication.NoQuantityFieldGivesDefault | Arch.Hexa.ModuMono.Modules.Orders.Application/Queries/Common/OrderLinesSorting.cs:24-70 | A sort without a `quantity` field gets the default alone |
| OrdersApplication.SingleOtherFieldGivesDefault | Arch.Hexa.ModuMono.Modules.Orders.Application/Queries/Common/OrderLinesSorting.cs:29-35 | A sort by one other field, such as `productName`, gets ProductName descending whatever direction was asked |
| OrdersApplication.OrdersStateOf | Arch.Hexa.ModuMono.Modules.Orders.Application/Handlers/GetOrdersQueryHandler.cs:19-50 | The page numbers, the OrderLines include, no criteria exactly without a creation bound, and the orders' sort |
| OrdersApplication.FilteredOrders | Arch.Hexa.ModuMono.Modules.Orders.Application/Handlers/GetOrdersQueryHandler.cs:38-42 | An order is considered exactly when it lies within the given creation bounds |
| OrdersApplication.HandleOrders | Arch.Hexa.ModuMono.Modules.Orders.Application/Handlers/GetOrdersQueryHandler.cs:16-92 | The response for the state of the query, mapped by `DomainToDto` |
| OrdersApplication.CustomerIdFilterIgnored | Arch.Hexa.ModuMono.Modules.Orders.Application/Handlers/GetOrdersQueryHandler.cs:32-43 | Changing `CustomerIdFilter` never changes the response |
| OrdersApplication.LinesStateOf | Arch.Hexa.ModuMono.Modules.Orders.Application/Handlers/GetOrderLinesQueryHandler.cs:19-49 | The page numbers, no includes, no criteria exactly without a filter (order id included), and the lines' sort |
| OrdersApplication.OrderIdFilterAloneAcceptsEveryLine | Arch.Hexa.ModuMono.Modules.Orders.Application/Handlers/GetOrderLinesQueryHandler.cs:28-39 | An order-id filter alone builds a criteria that accepts every line |
| OrdersApplication.FilteredLines | Arch.Hexa.ModuMono.Modules.Orders.Application/Handlers/GetOrderLinesQueryHandler.cs:36-39 | A line is considered exactly when it matches the product-name, quantity and price filters that are given |
| OrdersApplication.HandleOrderLines | Arch.Hexa.ModuMono.Modules.Orders.Application/Handlers/GetOrderLinesQueryHandler.cs:16-91 | The response for the state of the query, mapped by the line mapping |
| OrdersApplication.OrderIdFilterIgnored | Arch.Hexa.ModuMono.Modules.Orders.Application/Handlers/GetOrderLinesQueryHandler.cs:28-41 | Changing `OrderIdFilter` never changes the response |
| Api.GetLoggingLevel | Arch.Hexa.ModuMono.BuildingBlocks.Api/Helpers/LoggerHelper.cs:7-21 | 0 to 5 give the level of that value; every other number gives Information |
| Api.LoggingLevelsOrdered | Arch.Hexa.ModuMono.BuildingBlocks.Api/Helpers/LoggerHelper.cs:11-16 | On 0 to 5 the table is injective and strictly increasing in severity |
| Api.EveryLevelReachable | Arch.Hexa.ModuMono.BuildingBlocks.Api/Helpers/LoggerHelper.cs:11-16 | Each level is given by its own value |
| Api.FindFirst | Arch.Hexa.ModuMono.BuildingBlocks.Api/Helpers/AuthorizationHelper.cs:10-12 | None exactly when no claim has the type; otherwise the value of the first claim of that type |
| Api.HasScopeMeaning | Arch.Hexa.ModuMono.BuildingBlocks.Api/Helpers/AuthorizationHelper.cs:9-15 | Granted exactly when the scope is a non-empty space-separated piece of the scope string |
| Api.EmptyScopesGrantNothing | Arch.Hexa.ModuMono.BuildingBlocks.Api/Helpers/AuthorizationHelper.cs:13-15 | The empty scope is never granted, and nothing is granted without a scope string |
| Api.ScpClaimShadows | Arch.Hexa.ModuMono.BuildingBlocks.Api/Helpers/AuthorizationHelper.cs:10-12 | A first `scp` claim decides alone, even with an empty value |
| Api.JoinedScopesGranted | Arch.Hexa.ModuMono.BuildingBlocks.Api/Helpers/AuthorizationHelper.cs:9-15 | Scopes written space-separated into `scp` are granted, and nothing else is |
| Api.ErrorString | Arch.Hexa.ModuMono.BuildingBlocks.Api/Helpers/ValidationsHelper.cs:15-19 | At least five characters per error |
| Api.ErrorStringConcat | Arch.Hexa.ModuMono.BuildingBlocks.Api/Helpers/ValidationsHelper.cs:15-18 | The string for `a + b` is the string for `a` followed by the string for `b` |
| Api.Validations | Arch.Hexa.ModuMono.BuildingBlocks.Api/Helpers/ValidationsHelper.cs:8-20 | None exactly when there is no error; otherwise the non-empty error string |
| Api.ProblemOf | Arch.Hexa.ModuMono.BuildingBlocks.Api/Handlers/ApiExceptionHandler.cs:18-34 | Each status and each title belongs to exactly its kinds: 401 "Unauthorized", 499 "Cancelled", 400 "Validation Error" or "Bad Request", 409 "Conflict", 404 "Not Found", 500 "Internal Server Error"; the message is shown for validation, bad-request, conflict and not-found, and fixed texts stand in for the others |
| Api.HiddenMessage | Arch.Hexa.ModuMono.BuildingBlocks.Api/Handlers/ApiExceptionHandler.cs:20-23 | For the other kinds the problem does not depend on the message |
| Api.LogLevelOf | Arch.Hexa.ModuMono.BuildingBlocks.Api/Handlers/ApiExceptionHandler.cs:36-39 | Error or Warning |
| Api.ErrorLoggedOnlyForUnexpected | Arch.Hexa.ModuMono.BuildingBlocks.Api/Handlers/ApiExceptionHandler.cs:18-39 | Logged as an error exactly for unexpected exceptions; cancellations are warnings |
| Api.TryHandle | Arch.Hexa.ModuMono.BuildingBlocks.Api/Handlers/ApiExceptionHandler.cs:13-59 | Always handled; the logged level; the response's status, content type and problem body |

## Left out

- Assembly loading and reflection are left out: `ForceLoadAssembliesFromOutput`, `TryLoadReferencedAssemblies`, the `AppDomain` enumeration, `GetTypes` and `ReflectionTypeLoadException`. They are I/O; discovery starts from the assemblies already loaded.
- NetArchTest's dependency matching is modelled as membership of a name in a type's dependency set. Its exact matching rules are library code.
- Assembly identity is value equality. `Except` and `Distinct` over assemblies compare references in the source.
- EF Core is left out. The database's ordering is a parameter (`database`); `CountAsync` is the length of what it returns, and paging and slicing run over that sequence.
- `GetPaged`, `ListHandler.ResponseFor`, `CustomersApplication.Handle`, `OrdersApplication.HandleOrders` and `OrdersApplication.HandleOrderLines` require that the counted rows fit in an `int`. A larger count would overflow `CountAsync`.
- A negative `Skip` or `Take` passed to the database follows LINQ-to-Objects: nothing is skipped, and nothing is taken.
- `String.Contains` in the criteria is ordinal. A database collation may compare otherwise.
- Ordinal comparison runs over Unicode scalar values (Dafny's `char`), not UTF-16 code units. The two orders differ only for characters outside the Basic Multilingual Plane.
- `Environment.NewLine` is taken to be `"\n"`, as on a Linux host. The failure messages of the architecture rules hold it.
- NetArchTest's `HaveNameEndingWith` is taken to compare ordinally and case-sensitively, as `String.EndsWith` with ordinal comparison does.
- `ToLowerInvariant` and the case-insensitive claim-type match of `FindFirst` fold ASCII letters only.
- A `ClaimsPrincipal` is flattened to one list of claims across its identities.
- `Guid.NewGuid()` and `DateTime.UtcNow` are left out: ids and creation times are parameters, given as naturals and integers.
- The `decimal` overflow of `Total` is left out; prices and totals are exact reals.
- `Order.OrderLines` exposes the mutable list. The model only changes lines through `AddLine`, so `OrdersDomain.Order.Valid` is an invariant of the model, not of the source.
- Entities are read as value snapshots (`Record()`) by the mappings and the handlers.
- The files for `SortField`, `CustomerStatus`, `BadRequestException` and `ConflictException` are not part of this model. They are taken to be a record, an enum and plain `Exception` subclasses.
- `ValidationException` is the DataAnnotations exception. `OperationCanceledException` and `TaskCanceledException` are both cancellations.
- FluentValidation's `IsValid` is "no errors", and the validator's own rules are left out.
- `WriteAsJsonAsync` and the JSON serialisation of the problem are I/O. The model records the problem details written to the response.
- `logger.Error` and `logger.Warning` are left out: `Api.TryHandle` returns the level it would log at.
- Cancellation tokens are left out.
- `Api.LogLevelOf`: its own contract states only that the level is Error or Warning. `Api.ErrorLoggedOnlyForUnexpected` states when each applies.
- `Sorting.Recognised`: its own contract states only the length bound. `Sorting.RecognisedMembers`, `Sorting.RecognisedAppend` and `Sorting.RecognisedEmptyIff` state what it keeps.
