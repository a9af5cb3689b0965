# Roslyn demos: analyzer, code fix, refactoring and mass rename, modelled in Dafny

This project models the decision logic of four small Roslyn extensions.
The compiler's own structures are replaced by plain values that the
model works over:

* **PropertyMustBeVirtualAnalyzer.** An analyzer for NHibernate entities.
  A class is in scope when it, or any class in its base-type chain,
  carries `Domain.NHibernateAttribute`. Every property of such a class
  that is not `virtual`, `override` or `abstract` gets one Error
  diagnostic with id `NHibernateAnalyzers` and the message
  `Property '<name>' must be virtual`.
* **PropertyMustBeVirtualCodeFix.** The "Make virtual" code fix. It
  appends `virtual` to the reported property and swaps the document's
  syntax root.
* **CompilationExtensions.** Two well-known symbol lookups:
  * `Commands.Command` uses `SingleOrDefault` semantics;
  * `CommandHandlers.CommandHandler` uses `Single` semantics.
* **CreateCommandHandlerRefactoring.** On a class whose base type is the
  resolved `Command`, it offers to generate `<Name>Handler.cs` in the
  `CommandHandlers` project. That document contains
  `class <Name>Handler : CommandHandler<Name>` with an empty
  `public override void Execute(<Name> command)`.
* **MassiveRename.** A console tool. It renames one field at a time:
  the first field, in enumeration order, that is declared in source and
  whose name starts with `_` loses its first character. It repeats until
  no field qualifies, then applies the result to the workspace once.

## How the compiler's structures are represented

* The binder's view is a symbol table, `Symbols.SymbolTable`. Each entry
  has:
  * a name;
  * an optional namespace;
  * a kind;
  * a generic arity;
  * an optional base type;
  * the attributes applied to it.

  A type is named by its index in the table. `WellFormed` makes the
  inheritance relation acyclic by numbering every base type below the
  types derived from it.
* Syntax (`Syntax`) is the small subset of C# that the extensions read
  and write: namespaces, classes, and property, field and method
  declarations. A position in the text is replaced by the node that the
  token's parent would be (`NodeRef`, `MemberPath`).
* `GetDeclaredSymbol` of a class declaration is `Symbols.DeclaredType`:
  the first named type in the table with that name, namespace and number
  of type parameters.
* Every class declared in source has a base type, at least `object`
  (`System.Object`). Only `object` and interfaces have none.
* Exceptions the source lets escape are a `Result` failure
  (`Common.Exception`):
  * `First`, `Single` or `SingleOrDefault` failing on the number of matches;
  * `Construct` on a non-generic type, or given the wrong number of type
    arguments;
  * a member access through a null reference.
* `MassiveRename` has its own, coarser model. Projects hold documents,
  documents hold class symbols in descendant order, and class symbols
  hold members in `GetMembers()` order. The renamer changes the one
  field's name.
* `Fixtures` works through the repository's own `Domain.BaseEntity` and
  `CommandHandlers.CommandHandler<TCommand>`, together with an
  illustrative `Order`, a `CreateOrder` command and a few field names.

Behaviour of the code that the model keeps as it is:

* `CommandBaseTypeSymbol` calls `SingleOrDefault`, which throws when two
  `Commands.Command` types are visible. `ComputeRefactorings` then
  returns `Failure(MoreThanOneMatchingElement)`; it does not quietly
  offer nothing.
* `Single` over the `CommandHandlers` projects and over the handler base
  type throws on zero or several matches, which `CreateCommandHandler`
  returns as a failure.
* The rename visits projects, documents and types in the solution's
  enumeration order.
* The code fix casts the node at the start of the diagnostic's span to a
  property declaration and uses it without a null check. The model keeps
  this as `RegisterCodeFixesAsWritten`; see "## Findings".

## Model

| member | source | states |
|---|---|---|
| Linq.SingleIndex | CqrsExtensions/CqrsExtensions/CompilationExtensions.cs:23 | `Single`: succeeds with the only matching index. Fails with NoMatchingElement iff nothing matches. Fails with MoreThanOneMatchingElement iff two indices match. |
| Linq.SingleOrDefaultIndex | CqrsExtensions/CqrsExtensions/CompilationExtensions.cs:16 | `SingleOrDefault`: None iff nothing matches, the only matching index when exactly one matches, MoreThanOneMatchingElement iff two indices match. |
| Linq.FirstIndex | MassiveRename/Program.cs:79 | `FirstOrDefault`: None iff nothing matches, otherwise a matching index with no match before it. |
| Symbols.DeclaredType | CqrsExtensions/CqrsExtensions/Refactorings/CreateCommandHandlerRefactoring.cs:49 | The declared symbol is a named type with the declaration's name, namespace and number of type parameters, and no earlier such type exists. None iff no type matches. |
| PropertyMustBeVirtualAnalyzer.SupportedDiagnostics | NHibernateAnalyzers/NHibernateAnalyzers/DiagnosticAnalyzer.cs:16-27 | The analyzer supports exactly one descriptor, with id `NHibernateAnalyzers`, category `NHibernate`, severity Error, and enabled by default. |
| PropertyMustBeVirtualAnalyzer.MessageOf | NHibernateAnalyzers/NHibernateAnalyzers/DiagnosticAnalyzer.cs:20 | Formatting the message format with an identifier gives `Property '<identifier>' must be virtual`. |
| PropertyMustBeVirtualAnalyzer.FormatLiteralPrefix | NHibernateAnalyzers/NHibernateAnalyzers/DiagnosticAnalyzer.cs:20 | Format-string substitution leaves a prefix without placeholders unchanged. |
| PropertyMustBeVirtualAnalyzer.AncestorsAndSelf | NHibernateAnalyzers/NHibernateAnalyzers/DiagnosticAnalyzer.cs:78-88 | The chain starts at the type itself, has length inheritance depth + 1, and holds only types of the table. |
| PropertyMustBeVirtualAnalyzer.AncestorsAndSelfIsBaseChain | NHibernateAnalyzers/NHibernateAnalyzers/DiagnosticAnalyzer.cs:80-87 | Each element's base type is the next element, and the last element has no base type. |
| PropertyMustBeVirtualAnalyzer.BaseChainUnique | NHibernateAnalyzers/NHibernateAnalyzers/DiagnosticAnalyzer.cs:80-87 | Any sequence that starts at the type, follows base types and stops at null is the ancestors-and-self list. |
| PropertyMustBeVirtualAnalyzer.WalkAncestorsAndSelf | NHibernateAnalyzers/NHibernateAnalyzers/DiagnosticAnalyzer.cs:78-88 | The `while (current != null)` loop yields exactly `AncestorsAndSelf`. |
| PropertyMustBeVirtualAnalyzer.AnyCarriesMarker | NHibernateAnalyzers/NHibernateAnalyzers/DiagnosticAnalyzer.cs:47-49 | `SelectMany(GetAttributes).Any(...)` holds iff some type of the chain carries an attribute named `NHibernateAttribute` from namespace `Domain`. |
| PropertyMustBeVirtualAnalyzer.NHibernateClassIffMarkedAncestor | NHibernateAnalyzers/NHibernateAnalyzers/DiagnosticAnalyzer.cs:46-50 | A class is in scope iff it derives from, or is, a type carrying the marker, in both directions. |
| PropertyMustBeVirtualAnalyzer.SubclassInheritsScope | NHibernateAnalyzers/NHibernateAnalyzers/DiagnosticAnalyzer.cs:46-50 | A subclass of an in-scope class is in scope without its own attribute. |
| PropertyMustBeVirtualAnalyzer.PropertyDiagnostic | NHibernateAnalyzers/NHibernateAnalyzers/DiagnosticAnalyzer.cs:35-71 | A diagnostic is reported iff the class is in scope and the property is neither virtual, override nor abstract. It has id `NHibernateAnalyzers`, severity Error, message `Property '<identifier>' must be virtual`, and the property's location. |
| PropertyMustBeVirtualAnalyzer.AnalyzeProperty | NHibernateAnalyzers/NHibernateAnalyzers/DiagnosticAnalyzer.cs:35-71 | The imperative analysis, which walks the chain, tests scope, tests virtuality and reports, equals `PropertyDiagnostic`. |
| PropertyMustBeVirtualAnalyzer.AnalyzeNode | NHibernateAnalyzers/NHibernateAnalyzers/DiagnosticAnalyzer.cs:29-33 | Only property declarations are analysed. Other member kinds never produce a diagnostic. |
| PropertyMustBeVirtualCodeFix.CanFix | NHibernateAnalyzers/NHibernateAnalyzers/CodeFixProvider.cs:24-27 | The provider fixes exactly the analyzer's diagnostic id and no other. |
| PropertyMustBeVirtualCodeFix.AddModifier | NHibernateAnalyzers/NHibernateAnalyzers/CodeFixProvider.cs:51 | The new property is the old one with `virtual` appended after its existing modifiers, in order. Nothing else about it changes. |
| PropertyMustBeVirtualCodeFix.ReplaceMember | NHibernateAnalyzers/NHibernateAnalyzers/CodeFixProvider.cs:54 | The new root has the replacement at the path. Every other namespace, class and member is unchanged. |
| PropertyMustBeVirtualCodeFix.RegisterCodeFixes | NHibernateAnalyzers/NHibernateAnalyzers/CodeFixProvider.cs:35-63 | Exactly one action is registered for the first diagnostic: title and equivalence key `Make virtual`, and the same document with only its root swapped. |
| PropertyMustBeVirtualCodeFix.DiagnosticLocationIsFixable | NHibernateAnalyzers/NHibernateAnalyzers/CodeFixProvider.cs:41-48 | Every diagnostic the analyzer reports has a fixable id. The node at the start of its span is the reported property, as the fix assumes, iff the property has a modifier. |
| PropertyMustBeVirtualCodeFix.RegisterCodeFixesAsWritten | NHibernateAnalyzers/NHibernateAnalyzers/CodeFixProvider.cs:35-63 | On any context: NoMatchingElement when it holds no diagnostic. NullReference when the node at the span's start is not a property declaration. Otherwise the one registered fix. |
| PropertyMustBeVirtualCodeFix.UnmodifiedPropertyFixThrows | NHibernateAnalyzers/NHibernateAnalyzers/CodeFixProvider.cs:47-51 | For every reported property without modifiers, the fix as written throws NullReferenceException. |
| PropertyMustBeVirtualCodeFix.RegisterCodeFixesAt | NHibernateAnalyzers/NHibernateAnalyzers/CodeFixProvider.cs:41-62 | Located by the diagnostic's own location: one fix for that diagnostic, titled `Make virtual`, that appends `virtual` to the reported property and changes nothing else. |
| PropertyMustBeVirtualCodeFix.EveryReportedPropertyIsFixed | NHibernateAnalyzers/NHibernateAnalyzers/CodeFixProvider.cs:41-62 | Located that way, every reported property gets the fix. Afterwards the rule reports nothing there, and every other property gets the same verdict as before. |
| PropertyMustBeVirtualCodeFix.FixSilencesRule | NHibernateAnalyzers/NHibernateAnalyzers/CodeFixProvider.cs:51-60 | After the fix, the rule reports nothing at the fixed property, and every other property gets the same verdict as before. |
| PropertyMustBeVirtualCodeFix.ClassBindingUnchanged | NHibernateAnalyzers/NHibernateAnalyzers/CodeFixProvider.cs:54 | Replacing a member leaves every class declaration's symbol unchanged. |
| CompilationExtensions.CommandBaseTypeSymbol | CqrsExtensions/CqrsExtensions/CompilationExtensions.cs:13-17 | Among types named exactly `Command` in a namespace named `Commands`: null iff there is none, the only one if there is one, MoreThanOneMatchingElement iff two match. It never fails otherwise. |
| CompilationExtensions.CommandHandlerBaseTypeSymbol | CqrsExtensions/CqrsExtensions/CompilationExtensions.cs:19-24 | Among named types called exactly `CommandHandler` in a namespace named `CommandHandlers`: the only one, NoMatchingElement iff there is none, MoreThanOneMatchingElement iff two match. |
| CompilationExtensions.NoNamespaceNeverMatches | CqrsExtensions/CqrsExtensions/CompilationExtensions.cs:16-23 | A type without a containing namespace matches neither lookup. |
| CompilationExtensions.HandlerLookupIgnoresOtherTypes | CqrsExtensions/CqrsExtensions/CompilationExtensions.cs:21-23 | Adding a declaration of any type that is not a named type called exactly `CommandHandler` in `CommandHandlers` (for example `commandHandler`) leaves the handler lookup's outcome unchanged. |
| CompilationExtensions.CommandLookupIgnoresOtherTypes | CqrsExtensions/CqrsExtensions/CompilationExtensions.cs:15-16 | Adding a declaration of any type other than `Commands.Command` leaves the command lookup's outcome unchanged. |
| CreateCommandHandlerRefactoring.SelectedClassSymbol | CqrsExtensions/CqrsExtensions/Refactorings/CreateCommandHandlerRefactoring.cs:49 | The class's declared symbol is a type of the table. |
| CreateCommandHandlerRefactoring.ComputeRefactorings | CqrsExtensions/CqrsExtensions/Refactorings/CreateCommandHandlerRefactoring.cs:26-66 | No action when the node is not a class declaration. The `Command` lookup's exception iff it throws. Otherwise exactly one action titled `Create command handler` for the class iff its base type, which is never null, equals the resolved `Command`. No action in every other case. |
| CreateCommandHandlerRefactoring.NoCommandTypeOffersNothing | CqrsExtensions/CqrsExtensions/Refactorings/CreateCommandHandlerRefactoring.cs:51-57 | With no `Command` type in the compilation, nothing is offered on any node. |
| CreateCommandHandlerRefactoring.Construct | CqrsExtensions/CqrsExtensions/Refactorings/CreateCommandHandlerRefactoring.cs:74-82 | `Construct` succeeds iff the definition is generic and the number of type arguments equals its arity. The result is the generic name applied to those arguments. Otherwise it fails with NotGenericDefinition on a non-generic definition and with TypeArgumentCountMismatch on a wrong count. |
| CreateCommandHandlerRefactoring.HandlersProject | CqrsExtensions/CqrsExtensions/Refactorings/CreateCommandHandlerRefactoring.cs:70 | A found handler project is the only project of the solution named `CommandHandlers`. NoMatchingElement iff no project has that name. MoreThanOneMatchingElement iff two do. |
| CreateCommandHandlerRefactoring.CreateCommandHandler | CqrsExtensions/CqrsExtensions/Refactorings/CreateCommandHandlerRefactoring.cs:68-131 | Fails with the project lookup's exception when there is not exactly one `CommandHandlers` project. Succeeds iff the handler base type is found among the types the handlers project declares or references, and is generic in one parameter. The new solution is the old one with one document appended to that project. The document is named `<Name>Handler.cs` and holds exactly namespace `CommandHandlers`, one using for the command's namespace, and `class <Name>Handler : CommandHandler<Name>`. That class's only member is `public override void Execute(<Name> command) {}`. |
| CreateCommandHandlerRefactoring.GeneratedHandlerHandlesCommand | CqrsExtensions/CqrsExtensions/Refactorings/CreateCommandHandlerRefactoring.cs:95-127 | Reading the generated class back gives the command it was generated for, and the file is named after the class. |
| MassiveRename.NewName | MassiveRename/Program.cs:75 | The new name is the field name without its first character. |
| MassiveRename.StripLeadingUnderscores | MassiveRename/Program.cs:74-75 | Repeating the step removes exactly the leading underscores. The result no longer starts with `_`. |
| MassiveRename.HasCandidateIffSomePosition | MassiveRename/Program.cs:67-74 | Some field qualifies iff some position holds a source-declared field whose name starts with `_`. |
| MassiveRename.FirstCandidate | MassiveRename/Program.cs:67-79 | None iff no field qualifies. Otherwise a qualifying position with no qualifying field in an earlier project, document, class or member slot. |
| MassiveRename.FirstCandidateIsFirst | MassiveRename/Program.cs:67-79 | The chosen field precedes every other qualifying field in enumeration order. |
| MassiveRename.RenameAt | MassiveRename/Program.cs:76 | Only the field at the position changes, to the new name. The shape of the solution is kept. |
| MassiveRename.RenameOneSymbol | MassiveRename/Program.cs:63-88 | Returns `(false, solution)` unchanged iff no field qualifies. Otherwise returns `(true, s')`, where `s'` differs only in the first candidate, renamed without its first character. |
| MassiveRename.RenameDecreasesTotal | MassiveRename/Program.cs:46-76 | Each rename lowers the total number of leading underscores by exactly one. |
| MassiveRename.TotalZeroIffNoCandidate | MassiveRename/Program.cs:46-50 | The termination measure is zero exactly when no field qualifies. |
| MassiveRename.Normalized | MassiveRename/Program.cs:46-50 | In the fixpoint no field qualifies. |
| MassiveRename.RenamePreservesNormalized | MassiveRename/Program.cs:46-50 | A rename step does not change the fixpoint the loop converges to. |
| MassiveRename.NoCandidateIsNormal | MassiveRename/Program.cs:84-87 | A solution in which no field qualifies is its own fixpoint. |
| MassiveRename.RenameAll | MassiveRename/Program.cs:46-50 | The loop terminates with the fixpoint, in which no field starts with `_`. It performs exactly as many renames as there were leading underscores, so an already-normalised solution is returned unchanged after zero renames. |
| MassiveRename.Workspace.TryApplyChanges | MassiveRename/Program.cs:53 | The workspace takes the new solution iff the write-back is accepted, and reports that as a boolean. |
| MassiveRename.Do | MassiveRename/Program.cs:25-61 | Changes are applied to the workspace exactly once, after the loop. On success the workspace holds the fixpoint of the opened solution. |
| Fixtures.AbstractIdNotReported | FddCqrsRoslyn/Domain/BaseEntity.cs:9-13 | The abstract `Id` of the marked `BaseEntity` gets no diagnostic. |
| Fixtures.CustomerReported | NHibernateAnalyzers/NHibernateAnalyzers/DiagnosticAnalyzer.cs:47-70 | A plain property of a subclass of `BaseEntity` gets the Error diagnostic with its name in the message. |
| Fixtures.NoteFixThrows | NHibernateAnalyzers/NHibernateAnalyzers/CodeFixProvider.cs:47-51 | `string Note { get; set; }` in `Order` is reported, and the fix as written throws NullReferenceException on it. |
| Fixtures.RefactoringOfferedOnCommand | CqrsExtensions/CqrsExtensions/Refactorings/CreateCommandHandlerRefactoring.cs:51-65 | On a subclass of `Command` the one action is offered. On `Command` itself, `RefactoringNotOfferedOnBase` shows that nothing is offered. |
| Fixtures.RefactoringNotOfferedWithoutCommandType | CqrsExtensions/CqrsExtensions/Refactorings/CreateCommandHandlerRefactoring.cs:51-57 | On `BaseEntity`, in the `Domain` project, which has no `Command` type, nothing is offered. |
| Fixtures.HandlerBaseFound | CqrsExtensions/CqrsExtensions/CompilationExtensions.cs:19-24 | Among the types the `CommandHandlers` project declares and references, `CommandHandler<TCommand>` is the one match. |
| Fixtures.HandlerCreated | FddCqrsRoslyn/CommandHandlers/CommandHandler.cs:5-9 | With the one-parameter `CommandHandler<TCommand>`, the handler document `CreateOrderHandler.cs` is added to the `CommandHandlers` project. |
| Fixtures.FirstPass | MassiveRename/Program.cs:74-83 | `__count` becomes `_count`, which still qualifies. This is why the measure is the number of underscores, not the number of fields. |
| Fixtures.RenameExample | MassiveRename/Program.cs:46-50 | For `__count`, `name`, `_Run` (a method) and `_id`, the measure is 3 and the fixpoint is `count`, `name`, `_Run`, `id`. |

## Left out

- Parsing, binding and semantic models are replaced by the symbol table and the syntax subset. `SymbolFinder`, `GetSymbolsWithName` and `GetDeclaredSymbol` are lookups over that table.
- Text positions, spans and `FindToken` are replaced by the node a position falls in. For the code fix that node is derived from the reported declaration (`SpanStartNode`); for the refactoring it is part of the context.
- Members carry no attribute lists in the syntax subset. A reported property that starts with an attribute list, such as `[Column] public string Name { get; set; }`, starts its span at `[`. The fix as written throws on it as well, for the reason given under "## Findings". The model does not show that case.
- `referencedTypes` lists, per project, the types of the projects and assemblies it references. Which references a project has is not derived.
- `Simplifier.Annotation` and `Formatter.Annotation` are hints to later formatting passes and carry no logic. `SyntaxGenerator.TypeExpression` is the type-syntax constructor itself.
- `WellKnownFixAllProviders.BatchFixer` is batch fixing done by the library.
- Code actions are values, not deferred lambdas. The refactoring's action records the command type, and `Invoke` runs `CreateCommandHandler` on it.
- `async`/`Task`/`.Result`, cancellation tokens, `MSBuildWorkspace` loading, the command-line argument and `Console.WriteLine` are asynchrony and I/O. `Do` starts from the workspace's current solution, and whether the disk write succeeds is a parameter.
- `Renamer.RenameSymbolAsync` is modelled as changing the one field's name. Reference updates, comments, strings, name collisions and partial classes are not modelled. A field named exactly `_` is renamed to the empty name, which the real renamer would reject.
- Properties declared in interfaces are not modelled, because the syntax subset declares members only inside classes. The analyzer's syntax-node action runs on them as well. They are implicitly abstract, so it reports none of them.
- The generic constraint `where TCommand : Command` is not checked by `Construct`, as Roslyn's `Construct` does not check it either.
- The analyzer's `AttributeClass.ContainingNamespace.Name` is null-safe in the model. A null there would throw in the code, but the symbol table gives every type a namespace (`WellFormed`).
- CompilationError/Program.cs is not part of this model. It is a demo of compiler behaviour with no domain logic.
- The fixtures' `Order`, `Customer`, `Note`, `CreateOrder` and field names are illustrative. The repository's `BaseEntity` and `CommandHandler<TCommand>` appear as declared. `Object`, `ValueType`, `Guid` and `Attribute` stand in for the core library.

## Findings

| source | as written | input that shows it | evidently intended | confidence | as-written member | corrected member |
|---|---|---|---|---|---|---|
| NHibernateAnalyzers/NHibernateAnalyzers/CodeFixProvider.cs:44-51 | It takes the parent of the token at `context.Span.Start` and casts it with `as PropertyDeclarationSyntax`. Then it calls `AddModifiers` on the result with no null check. | `string Note { get; set; }` in a subclass of `BaseEntity` (`Fixtures.NoteFixThrows`). The span starts at `string`, whose parent is the type's node, so `property` is null and `AddModifiers` throws NullReferenceException. | Find the property from `diagnosticSpan`, which line 44 computes and never uses: the enclosing property declaration of the diagnostic's location. | not executed; high | PropertyMustBeVirtualCodeFix.RegisterCodeFixesAsWritten | PropertyMustBeVirtualCodeFix.RegisterCodeFixesAt |
