/** The two well-known symbol lookups of the CQRS extensions: the base
    command type `Commands.Command` and the base handler type
    `CommandHandlers.CommandHandler`. */
module CompilationExtensions {
  import opened Common
  import opened Symbols
  import Linq

  /** Matches `GetSymbolsWithName(x => x == "Command", SymbolFilter.Type)`
      followed by `ContainingNamespace?.Name == "Commands"`. */
  predicate IsCommandBaseType(types: SymbolTable, t: TypeId)
  {
    t < |types| && types[t].name == "Command" && InNamespaceNamed(types, t, "Commands")
  }

  /** Matches `FindDeclarationsAsync(project, "CommandHandler", ignoreCase: false, SymbolFilter.Type)`,
      then `OfType<INamedTypeSymbol>()`, then `ContainingNamespace?.Name == "CommandHandlers"`. */
  predicate IsCommandHandlerBaseType(types: SymbolTable, t: TypeId)
  {
    && t < |types| && types[t].name == "CommandHandler"
    && types[t].kind == NamedType
    && InNamespaceNamed(types, t, "CommandHandlers")
  }

  /** `CommandBaseTypeSymbol` over the type symbols of one compilation:
      null when no symbol matches, the symbol when exactly one does, and
      InvalidOperationException when more than one does. */
  function CommandBaseTypeSymbol(types: SymbolTable, compilation: seq<TypeId>): (r: Result<Option<TypeId>, Exception>)
    ensures r == Success(None) <==> forall k :: 0 <= k < |compilation| ==> !IsCommandBaseType(types, compilation[k])
    ensures r.Success? && r.value.Some? ==>
              && r.value.value in compilation
              && IsCommandBaseType(types, r.value.value)
              && (exists k :: 0 <= k < |compilation| && compilation[k] == r.value.value
                   && forall j :: 0 <= j < |compilation| && j != k ==> !IsCommandBaseType(types, compilation[j]))
    ensures r == Failure(MoreThanOneMatchingElement) <==>
              exists j, k :: 0 <= j < k < |compilation| && IsCommandBaseType(types, compilation[j])
                             && IsCommandBaseType(types, compilation[k])
    ensures r.Failure? ==> r.error == MoreThanOneMatchingElement
  {
    var found :- Linq.SingleOrDefaultIndex(compilation, (t: TypeId) => IsCommandBaseType(types, t));
    match found
    case None => Success(None)
    case Some(k) => Success(Some(compilation[k]))
  }

  /** `CommandHandlerBaseTypeSymbol` over the type symbols declared in one
      project: the matching symbol when exactly one matches, and
      InvalidOperationException on none or on more than one. */
  function CommandHandlerBaseTypeSymbol(types: SymbolTable, declarations: seq<TypeId>): (r: Result<TypeId, Exception>)
    ensures r.Success? ==>
              && IsCommandHandlerBaseType(types, r.value)
              && (exists k :: 0 <= k < |declarations| && declarations[k] == r.value
                   && forall j :: 0 <= j < |declarations| && j != k ==> !IsCommandHandlerBaseType(types, declarations[j]))
    ensures r == Failure(NoMatchingElement) <==>
              forall k :: 0 <= k < |declarations| ==> !IsCommandHandlerBaseType(types, declarations[k])
    ensures r == Failure(MoreThanOneMatchingElement) <==>
              exists j, k :: 0 <= j < k < |declarations| && IsCommandHandlerBaseType(types, declarations[j])
                             && IsCommandHandlerBaseType(types, declarations[k])
    ensures r.Failure? ==> r.error == NoMatchingElement || r.error == MoreThanOneMatchingElement
  {
    var k :- Linq.SingleIndex(declarations, (t: TypeId) => IsCommandHandlerBaseType(types, t));
    Success(declarations[k])
  }

  /** A symbol without a containing namespace matches neither lookup. */
  lemma NoNamespaceNeverMatches(types: SymbolTable, t: TypeId)
    requires t < |types| && types[t].containingNamespace.None?
    ensures !IsCommandBaseType(types, t) && !IsCommandHandlerBaseType(types, t)
  {
  }

  /** Only a named type called exactly `CommandHandler` in a namespace
      named `CommandHandlers` takes part in the handler lookup: one more
      declaration of any other type (a `commandHandler`, a `CommandHandler`
      elsewhere, a delegate of that name) leaves its outcome unchanged. */
  lemma HandlerLookupIgnoresOtherTypes(types: SymbolTable, declarations: seq<TypeId>, t: TypeId)
    requires !IsCommandHandlerBaseType(types, t)
    ensures CommandHandlerBaseTypeSymbol(types, declarations + [t]) == CommandHandlerBaseTypeSymbol(types, declarations)
  {
    Linq.SingleIgnoresUnmatched(declarations, (u: TypeId) => IsCommandHandlerBaseType(types, u), t);
    var r := Linq.SingleIndex(declarations, (u: TypeId) => IsCommandHandlerBaseType(types, u));
    if r.Success? {
      assert (declarations + [t])[r.value] == declarations[r.value];
    }
  }

  /** Likewise for the command lookup: one more declaration of a type that
      is not `Commands.Command` leaves its outcome unchanged. */
  lemma CommandLookupIgnoresOtherTypes(types: SymbolTable, compilation: seq<TypeId>, t: TypeId)
    requires !IsCommandBaseType(types, t)
    ensures CommandBaseTypeSymbol(types, compilation + [t]) == CommandBaseTypeSymbol(types, compilation)
  {
    Linq.SingleIgnoresUnmatched(compilation, (u: TypeId) => IsCommandBaseType(types, u), t);
    var r := Linq.SingleOrDefaultIndex(compilation, (u: TypeId) => IsCommandBaseType(types, u));
    if r.Success? && r.value.Some? {
      assert (compilation + [t])[r.value.value] == compilation[r.value.value];
    }
  }
}
