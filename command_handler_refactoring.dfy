/** The "Create command handler" refactoring: on a class deriving from
    the base command type it offers to generate `<Name>Handler.cs`, a
    handler class for that command, in the `CommandHandlers` project. */
module CreateCommandHandlerRefactoring {
  import opened Common
  import opened Symbols
  import opened Syntax
  import Linq
  import CE = CompilationExtensions

  const RefactoringTitle: string := "Create command handler"
  const HandlersProjectName: string := "CommandHandlers"
  const HandlersNamespace: Namespace := ["CommandHandlers"]
  const HandlerSuffix: string := "Handler"
  const ExecuteMethodName: string := "Execute"
  const CommandParameterName: string := "command"

  /** The document the refactoring is asked about (by project and
      document position) and the node `context.Span.Start` falls in. */
  datatype RefactoringContext = RefactoringContext(project: nat, document: nat, spanStartNode: NodeRef)

  /** A registered code action: its title and the command type whose
      handler it creates when invoked. */
  datatype CodeAction = CodeAction(title: string, commandType: TypeId)

  /** What the host and the language guarantee: the context names a
      document of the solution, and a selected class declaration has a
      symbol whose base type is set (every class declared in source derives
      at least from `object`). */
  ghost predicate ValidContext(types: SymbolTable, solution: Solution, context: RefactoringContext)
  {
    && WellFormed(types)
    && context.project < |solution.projects|
    && context.document < |solution.projects[context.project].documents|
    && (context.spanStartNode.ClassNode? ==>
          var root := solution.projects[context.project].documents[context.document].root;
          && ValidClass(root, context.spanStartNode.ns, context.spanStartNode.cls)
          && ClassSymbol(types, root, context.spanStartNode.ns, context.spanStartNode.cls).Some?
          && types[ClassSymbol(types, root, context.spanStartNode.ns, context.spanStartNode.cls).value].baseType.Some?)
  }

  /** The symbol of the selected class declaration. */
  function SelectedClassSymbol(types: SymbolTable, solution: Solution, context: RefactoringContext): (t: TypeId)
    requires ValidContext(types, solution, context) && context.spanStartNode.ClassNode?
    ensures t < |types|
  {
    var root := solution.projects[context.project].documents[context.document].root;
    ClassSymbol(types, root, context.spanStartNode.ns, context.spanStartNode.cls).value
  }

  /** The base command type as resolved in the compilation of the context's
      project; `GetSymbolsWithName` sees only the project's own source. */
  function ResolvedCommandType(types: SymbolTable, solution: Solution, context: RefactoringContext): Result<Option<TypeId>, Exception>
    requires context.project < |solution.projects|
  {
    CE.CommandBaseTypeSymbol(types, solution.projects[context.project].declaredTypes)
  }

  /** `ComputeRefactoringsAsync`: the actions it registers, or the exception
      the base command type lookup throws. */
  function ComputeRefactorings(types: SymbolTable, solution: Solution, context: RefactoringContext)
    : (r: Result<seq<CodeAction>, Exception>)
    requires ValidContext(types, solution, context)
    ensures !context.spanStartNode.ClassNode? ==> r == Success([])
    ensures r.Failure? <==> context.spanStartNode.ClassNode? && ResolvedCommandType(types, solution, context).Failure?
    ensures r.Failure? ==> r.error == MoreThanOneMatchingElement
    ensures r.Success? ==> |r.value| <= 1
    ensures r.Success? && |r.value| == 1 <==>
              && context.spanStartNode.ClassNode?
              && ResolvedCommandType(types, solution, context)
                 == Success(types[SelectedClassSymbol(types, solution, context)].baseType)
    ensures r.Success? && |r.value| == 1 ==>
              r.value[0] == CodeAction("Create command handler", SelectedClassSymbol(types, solution, context))
  {
    var node := context.spanStartNode;
    if !node.ClassNode? then Success([])
    else
      var classSymbol := SelectedClassSymbol(types, solution, context);
      var commandType :- ResolvedCommandType(types, solution, context);
      if types[classSymbol].baseType != commandType then Success([])
      else Success([CodeAction(RefactoringTitle, classSymbol)])
  }

  /** When the compilation has no base command type, nothing is offered:
      the selected class's base type is never null. */
  lemma NoCommandTypeOffersNothing(types: SymbolTable, solution: Solution, context: RefactoringContext)
    requires ValidContext(types, solution, context)
    requires ResolvedCommandType(types, solution, context) == Success(None)
    ensures ComputeRefactorings(types, solution, context) == Success([])
  {
  }

  // ----- Synthesis of the handler document -----

  /** `INamedTypeSymbol.Construct(typeArguments)` followed by
      `SyntaxGenerator.TypeExpression`: the closed generic type;
      InvalidOperationException when the definition is not generic, and
      ArgumentException when the number of type arguments is wrong. */
  function Construct(types: SymbolTable, definition: TypeId, typeArguments: seq<TypeId>): (r: Result<TypeSyntax, Exception>)
    requires definition < |types|
    ensures r.Success? <==> types[definition].arity > 0 && |typeArguments| == types[definition].arity
    ensures r.Failure? ==> r.error == if types[definition].arity == 0 then NotGenericDefinition else TypeArgumentCountMismatch
    ensures r.Success? ==> r.value.GenericName? && r.value.symbol == definition
                           && |r.value.typeArguments| == |typeArguments|
                           && forall i | 0 <= i < |typeArguments| :: r.value.typeArguments[i] == TypeName(typeArguments[i])
  {
    if types[definition].arity == 0 then Failure(NotGenericDefinition)
    else if |typeArguments| != types[definition].arity then Failure(TypeArgumentCountMismatch)
    else Success(GenericName(definition, seq(|typeArguments|, i requires 0 <= i < |typeArguments| => TypeName(typeArguments[i]))))
  }

  /** The compilation unit of the new document, built bottom-up: the
      `Execute` method, the handler class, the namespace, the unit. */
  function HandlerUnit(types: SymbolTable, commandType: TypeId, baseType: TypeSyntax): CompilationUnit
    requires WellFormed(types) && commandType < |types|
  {
    var commandTypeSyntax := TypeName(commandType);
    var executeMethod := MethodDecl([Public, Override], PredefinedType("void"), ExecuteMethodName,
                                    [Parameter(CommandParameterName, commandTypeSyntax)], Block([]));
    var handlerClass := ClassDecl([], types[commandType].name + HandlerSuffix, [], [baseType], [executeMethod]);
    var usingDirective := DisplayString(types[commandType].containingNamespace.value);
    var ns := NamespaceDecl(HandlersNamespace, [usingDirective], [handlerClass]);
    CompilationUnit([ns])
  }

  /** `project.AddDocument(name, root).Project.Solution`. */
  function AddDocument(solution: Solution, project: nat, document: Document): Solution
    requires project < |solution.projects|
  {
    var p := solution.projects[project];
    solution.(projects := solution.projects[project := p.(documents := p.documents + [document])])
  }

  /** `after` is `before` with `document` appended to project `project` and nothing else changed. */
  ghost predicate AddsOneDocument(before: Solution, after: Solution, project: nat, document: Document)
  {
    && project < |before.projects|
    && |after.projects| == |before.projects|
    && (forall k | 0 <= k < |before.projects| && k != project :: after.projects[k] == before.projects[k])
    && after.projects[project].name == before.projects[project].name
    && after.projects[project].declaredTypes == before.projects[project].declaredTypes
    && after.projects[project].referencedTypes == before.projects[project].referencedTypes
    && after.projects[project].documents == before.projects[project].documents + [document]
  }

  /** The document holds exactly the handler for `commandType`:
      namespace `CommandHandlers` importing the command's namespace, and in
      it `class <Name>Handler : CommandHandler<Name>` whose one member is
      `public override void Execute(<Name> command) {}`. */
  ghost predicate IsHandlerDocument(types: SymbolTable, document: Document, handlerBase: TypeId, commandType: TypeId)
    requires WellFormed(types) && commandType < |types|
  {
    var name := types[commandType].name;
    && document.name == name + "Handler.cs"
    && |document.root.members| == 1
    && document.root.members[0].name == ["CommandHandlers"]
    && document.root.members[0].usings == [DisplayString(types[commandType].containingNamespace.value)]
    && |document.root.members[0].members| == 1
    && var handler := document.root.members[0].members[0];
       && handler.identifier == name + "Handler"
       && handler.modifiers == [] && handler.typeParameters == []
       && handler.baseList == [GenericName(handlerBase, [TypeName(commandType)])]
       && |handler.members| == 1
       && handler.members[0].MethodDecl?
       && handler.members[0].modifiers == [Public, Override]
       && handler.members[0].returnType == PredefinedType("void")
       && handler.members[0].identifier == "Execute"
       && handler.members[0].parameters == [Parameter("command", TypeName(commandType))]
       && handler.members[0].body.statements == []
  }

  /** The project the handler goes to: the single one named `CommandHandlers`. */
  function HandlersProject(solution: Solution): (r: Result<nat, Exception>)
    ensures r.Success? ==> r.value < |solution.projects| && solution.projects[r.value].name == "CommandHandlers"
    ensures r.Success? ==> forall k :: 0 <= k < |solution.projects| && k != r.value ==> solution.projects[k].name != "CommandHandlers"
    ensures r == Failure(NoMatchingElement) <==>
              forall k :: 0 <= k < |solution.projects| ==> solution.projects[k].name != "CommandHandlers"
    ensures r == Failure(MoreThanOneMatchingElement) <==>
              exists j, k :: 0 <= j < k < |solution.projects| && solution.projects[j].name == "CommandHandlers"
                             && solution.projects[k].name == "CommandHandlers"
    ensures r.Failure? ==> r.error == NoMatchingElement || r.error == MoreThanOneMatchingElement
  {
    Linq.SingleIndex(solution.projects, (p: Project) => p.name == HandlersProjectName)
  }

  /** The types `SymbolFinder.FindDeclarationsAsync` searches for a
      project: its own source and everything it references. */
  function VisibleTypes(project: Project): seq<TypeId>
  {
    project.declaredTypes + project.referencedTypes
  }

  /** The handler base type, as seen from the handlers project. */
  function HandlerBase(types: SymbolTable, solution: Solution): Result<TypeId, Exception>
  {
    var project :- HandlersProject(solution);
    CE.CommandHandlerBaseTypeSymbol(types, VisibleTypes(solution.projects[project]))
  }

  /** `CreateCommandHandler`: the new solution, or the exception one of its
      lookups or the type construction throws. */
  function CreateCommandHandler(types: SymbolTable, solution: Solution, commandType: TypeId)
    : (r: Result<Solution, Exception>)
    requires WellFormed(types) && commandType < |types|
    ensures HandlersProject(solution).Failure? ==> r == Failure(HandlersProject(solution).error)
    ensures r.Success? <==> HandlerBase(types, solution).Success? && types[HandlerBase(types, solution).value].arity == 1
    ensures r.Success? ==>
              var project := HandlersProject(solution).value;
              && project < |r.value.projects|
              && |r.value.projects[project].documents| == |solution.projects[project].documents| + 1
              && var document := r.value.projects[project].documents[|solution.projects[project].documents|];
              && AddsOneDocument(solution, r.value, project, document)
              && IsHandlerDocument(types, document, HandlerBase(types, solution).value, commandType)
  {
    var project :- HandlersProject(solution);
    var handlerBase :- CE.CommandHandlerBaseTypeSymbol(types, VisibleTypes(solution.projects[project]));
    var baseType :- Construct(types, handlerBase, [commandType]);
    assert baseType.typeArguments == [TypeName(commandType)];
    var documentName := types[commandType].name + HandlerSuffix + ".cs";
    var document := Document(documentName, HandlerUnit(types, commandType, baseType));
    Success(AddDocument(solution, project, document))
  }

  /** Invoking a registered action. */
  function Invoke(types: SymbolTable, solution: Solution, action: CodeAction): Result<Solution, Exception>
    requires WellFormed(types) && action.commandType < |types|
  {
    CreateCommandHandler(types, solution, action.commandType)
  }

  // ----- Reading a handler back -----

  /** The command a handler class handles: the type argument of its single
      base type, provided it overrides `Execute` for exactly that type. */
  function HandledCommand(cls: ClassDecl, handlerBase: TypeId): Option<TypeId>
  {
    if |cls.baseList| == 1 && cls.baseList[0].GenericName? && cls.baseList[0].symbol == handlerBase
       && |cls.baseList[0].typeArguments| == 1 && cls.baseList[0].typeArguments[0].TypeName?
    then
      var command := cls.baseList[0].typeArguments[0].symbol;
      if exists i | 0 <= i < |cls.members| :: OverridesExecuteFor(cls.members[i], command)
      then Some(command) else None
    else None
  }

  predicate OverridesExecuteFor(m: MemberDecl, command: TypeId)
  {
    && m.MethodDecl? && Override in m.modifiers && m.identifier == "Execute"
    && m.returnType == PredefinedType("void")
    && |m.parameters| == 1 && m.parameters[0].parameterType == TypeName(command)
  }

  /** The generated class handles exactly the command it was generated
      for, and the file is named after the class. */
  lemma {:induction false} GeneratedHandlerHandlesCommand(types: SymbolTable, solution: Solution, commandType: TypeId)
    requires WellFormed(types) && commandType < |types|
    requires CreateCommandHandler(types, solution, commandType).Success?
    ensures var project := HandlersProject(solution).value;
            var document := CreateCommandHandler(types, solution, commandType).value.projects[project].documents[|solution.projects[project].documents|];
            && HandledCommand(document.root.members[0].members[0], HandlerBase(types, solution).value) == Some(commandType)
            && document.name == document.root.members[0].members[0].identifier + ".cs"
  {
    var project := HandlersProject(solution).value;
    var document := CreateCommandHandler(types, solution, commandType).value.projects[project].documents[|solution.projects[project].documents|];
    var cls := document.root.members[0].members[0];
    assert OverridesExecuteFor(cls.members[0], commandType);
    assert document.name == types[commandType].name + "Handler" + ".cs";
  }
}
