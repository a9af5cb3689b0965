/** The binder's view of the program: the type symbols of a solution.
    A type is named by its position in the symbol table. */
module Symbols {
  import opened Common
  import Linq

  type TypeId = nat

  /** A namespace as its dotted segments; the global namespace has none. */
  type Namespace = seq<string>

  /** `INamedTypeSymbol` (classes, structs, interfaces, enums, delegates)
      versus every other kind of type symbol. */
  datatype TypeKind = NamedType | OtherType

  /** One attribute application; it names the attribute's class. */
  datatype AttributeData = AttributeData(attributeClass: TypeId)

  datatype TypeSymbol = TypeSymbol(
    name: string,
    containingNamespace: Option<Namespace>,
    kind: TypeKind,
    arity: nat,                        // number of type parameters
    baseType: Option<TypeId>,          // null only for `object` and interfaces
    attributes: seq<AttributeData>)    // GetAttributes(): the attributes applied to this type itself

  type SymbolTable = seq<TypeSymbol>

  /** `INamespaceSymbol.Name`: the last segment; the global namespace's name is empty. */
  function NamespaceName(ns: Namespace): string
  {
    if ns == [] then "" else ns[|ns| - 1]
  }

  /** The segments joined by dots. */
  function JoinSegments(ns: Namespace): string
    decreases |ns|
  {
    if ns == [] then ""
    else if |ns| == 1 then ns[0]
    else ns[0] + "." + JoinSegments(ns[1..])
  }

  /** `INamespaceSymbol.ToDisplayString()`. */
  function DisplayString(ns: Namespace): string
  {
    if ns == [] then "<global namespace>" else JoinSegments(ns)
  }

  /** What the binder guarantees of a symbol table: every type sits in a
      namespace, every attribute names a type of the table, and the
      inheritance relation is acyclic, encoded by numbering every base
      type below the types derived from it (any finite acyclic hierarchy
      can be numbered so). */
  ghost predicate WellFormed(types: SymbolTable)
  {
    forall t | 0 <= t < |types| ::
      && types[t].containingNamespace.Some?
      && (types[t].baseType.Some? ==> types[t].baseType.value < t)
      && (forall a | 0 <= a < |types[t].attributes| :: types[t].attributes[a].attributeClass < |types|)
  }

  /** True when `t` is a type of the table whose containing namespace
      exists and is named `name` (`ContainingNamespace?.Name == name`). */
  predicate InNamespaceNamed(types: SymbolTable, t: TypeId, name: string)
  {
    && t < |types|
    && types[t].containingNamespace.Some?
    && NamespaceName(types[t].containingNamespace.value) == name
  }

  /** `SemanticModel.GetDeclaredSymbol` for a class declaration: the named
      type with that name, that number of type parameters, declared in that
      namespace (the first such entry). */
  function DeclaredType(types: SymbolTable, ns: Namespace, identifier: string, arity: nat): (r: Option<TypeId>)
    ensures r.Some? ==> r.value < |types| && Declares(types[r.value], ns, identifier, arity)
    ensures r.Some? ==> forall t :: 0 <= t < r.value ==> !Declares(types[t], ns, identifier, arity)
    ensures r.None? ==> forall t :: 0 <= t < |types| ==> !Declares(types[t], ns, identifier, arity)
  {
    Linq.FirstIndex(types, (s: TypeSymbol) => Declares(s, ns, identifier, arity))
  }

  /** `s` is the named type a declaration `identifier<arity type parameters>` in `ns` introduces. */
  predicate Declares(s: TypeSymbol, ns: Namespace, identifier: string, arity: nat)
  {
    s.name == identifier && s.containingNamespace == Some(ns) && s.kind == NamedType && s.arity == arity
  }
}
