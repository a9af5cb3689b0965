/** The subset of C# syntax the core reads and writes, and the
    solution/project/document snapshots that hold it.  Every value is
    immutable: an edit builds a new tree. */
module Syntax {
  import opened Common
  import opened Symbols

  datatype Modifier = Public | Protected | Internal | Private | Static | Abstract | Virtual | Override | Sealed | Readonly | Partial

  /** A type as written; after binding, a name refers to a type symbol. */
  datatype TypeSyntax =
    | PredefinedType(keyword: string)                                 // void, int, string, ...
    | TypeName(symbol: TypeId)
    | GenericName(symbol: TypeId, typeArguments: seq<TypeSyntax>)

  datatype Parameter = Parameter(identifier: string, parameterType: TypeSyntax)

  /** A statement; its inside is never inspected by the core. */
  datatype Statement = Statement(text: string)

  datatype Block = Block(statements: seq<Statement>)

  datatype MemberDecl =
    | PropertyDecl(modifiers: seq<Modifier>, propertyType: TypeSyntax, identifier: string)
    | FieldDecl(modifiers: seq<Modifier>, fieldType: TypeSyntax, identifier: string)
    | MethodDecl(modifiers: seq<Modifier>, returnType: TypeSyntax, identifier: string,
                 parameters: seq<Parameter>, body: Block)

  datatype ClassDecl = ClassDecl(
    modifiers: seq<Modifier>,
    identifier: string,
    typeParameters: seq<string>,
    baseList: seq<TypeSyntax>,
    members: seq<MemberDecl>)

  /** A namespace declaration with its using directives (by namespace name)
      and the classes declared in it. */
  datatype NamespaceDecl = NamespaceDecl(name: Namespace, usings: seq<string>, members: seq<ClassDecl>)

  /** A syntax root; classes outside any namespace sit in a declaration
      whose name is the global namespace `[]`. */
  datatype CompilationUnit = CompilationUnit(members: seq<NamespaceDecl>)

  datatype Document = Document(name: string, root: CompilationUnit)

  /** A project; `declaredTypes` are the type symbols declared in its own
      source, in declaration order, and `referencedTypes` those of the
      projects and assemblies it references. */
  datatype Project = Project(name: string, documents: seq<Document>, declaredTypes: seq<TypeId>, referencedTypes: seq<TypeId>)

  datatype Solution = Solution(projects: seq<Project>)

  /** The position of a member declaration: namespace, class, member. */
  datatype MemberPath = MemberPath(ns: nat, cls: nat, member: nat)

  /** The node a position of the text belongs to (the parent of the token
      found there). */
  datatype NodeRef = ClassNode(ns: nat, cls: nat) | MemberNode(path: MemberPath) | OtherNode

  predicate ValidClass(unit: CompilationUnit, ns: nat, cls: nat)
  {
    ns < |unit.members| && cls < |unit.members[ns].members|
  }

  predicate ValidMemberPath(unit: CompilationUnit, p: MemberPath)
  {
    ValidClass(unit, p.ns, p.cls) && p.member < |unit.members[p.ns].members[p.cls].members|
  }

  function ClassAt(unit: CompilationUnit, ns: nat, cls: nat): ClassDecl
    requires ValidClass(unit, ns, cls)
  {
    unit.members[ns].members[cls]
  }

  function MemberAt(unit: CompilationUnit, p: MemberPath): MemberDecl
    requires ValidMemberPath(unit, p)
  {
    unit.members[p.ns].members[p.cls].members[p.member]
  }

  /** The symbol the binder gives the class declared at (ns, cls). */
  function ClassSymbol(types: SymbolTable, unit: CompilationUnit, ns: nat, cls: nat): Option<TypeId>
    requires ValidClass(unit, ns, cls)
  {
    DeclaredType(types, unit.members[ns].name, ClassAt(unit, ns, cls).identifier, |ClassAt(unit, ns, cls).typeParameters|)
  }
}
