/** The "property must be virtual" rule: in a class that is, or derives
    from, a class marked with `Domain.NHibernateAttribute`, every property
    declaration must be virtual, override or abstract. */
module PropertyMustBeVirtualAnalyzer {
  import opened Common
  import opened Symbols
  import opened Syntax

  const DiagnosticId: string := "NHibernateAnalyzers"
  const Title: string := "Property must be virtual"
  const MessagePrefix: string := "Property '"
  const MessageSuffix: string := "' must be virtual"
  /** "Property '{0}' must be virtual", held in three parts. */
  const MessageFormat: string := MessagePrefix + "{0}" + MessageSuffix
  const Description: string := "All properties in NHibernate-enabled classes must be virtual"
  const Category: string := "NHibernate"

  /** The marker: an attribute class of this name in a namespace of this name. */
  const MarkerAttributeName: string := "NHibernateAttribute"
  const MarkerNamespaceName: string := "Domain"

  datatype DiagnosticSeverity = Hidden | Info | Warning | Error

  datatype DiagnosticDescriptor = DiagnosticDescriptor(
    id: string, title: string, messageFormat: string, category: string,
    defaultSeverity: DiagnosticSeverity, isEnabledByDefault: bool, description: string)

  const Rule: DiagnosticDescriptor :=
    DiagnosticDescriptor(DiagnosticId, Title, MessageFormat, Category, Error, true, Description)

  /** A reported diagnostic; its location is the node it covers. */
  datatype Diagnostic = Diagnostic(id: string, severity: DiagnosticSeverity, message: string, location: MemberPath)

  /** The kinds of member nodes; `Initialize` registers the analysis for one of them. */
  datatype SyntaxKind = PropertyDeclaration | FieldDeclaration | MethodDeclaration

  const AnalyzedKind: SyntaxKind := PropertyDeclaration

  function KindOf(m: MemberDecl): SyntaxKind
  {
    match m
    case PropertyDecl(_, _, _) => PropertyDeclaration
    case FieldDecl(_, _, _) => FieldDeclaration
    case MethodDecl(_, _, _, _, _) => MethodDeclaration
  }

  function SupportedDiagnostics(): (r: seq<DiagnosticDescriptor>)
    ensures |r| == 1 && r[0].id == "NHibernateAnalyzers" && r[0].category == "NHibernate"
    ensures r[0].defaultSeverity == Error && r[0].isEnabledByDefault
  {
    [Rule]
  }

  // ----- Message formatting -----

  /** Composite formatting with one argument: every `{0}` becomes `arg`. */
  function FormatMessage(format: string, arg: string): string
    decreases |format|
  {
    if |format| < 3 then format
    else if format[..3] == "{0}" then arg + FormatMessage(format[3..], arg)
    else [format[0]] + FormatMessage(format[1..], arg)
  }

  /** Text without an opening brace passes through formatting unchanged. */
  lemma {:induction false} FormatLiteralPrefix(prefix: string, rest: string, arg: string)
    requires '{' !in prefix
    ensures FormatMessage(prefix + rest, arg) == prefix + FormatMessage(rest, arg)
    decreases |prefix|
  {
    if prefix != [] {
      var s := prefix + rest;
      assert s[0] == prefix[0];
      if |s| < 3 {
        assert |rest| < 3;
        assert FormatMessage(s, arg) == s;
        assert FormatMessage(rest, arg) == rest;
      } else {
        assert prefix[0] in prefix;
        assert s[..3] != "{0}" by { assert s[..3][0] == prefix[0]; assert "{0}"[0] == '{'; }
        assert FormatMessage(s, arg) == [s[0]] + FormatMessage(s[1..], arg);
        assert s[1..] == prefix[1..] + rest;
        FormatLiteralPrefix(prefix[1..], rest, arg);
        assert [prefix[0]] + prefix[1..] == prefix;
        assert FormatMessage(s, arg) == [prefix[0]] + (prefix[1..] + FormatMessage(rest, arg));
      }
    } else {
      assert prefix + rest == rest;
    }
  }

  /** A leading placeholder is replaced by the argument. */
  lemma FormatPlaceholder(rest: string, arg: string)
    ensures FormatMessage("{0}" + rest, arg) == arg + FormatMessage(rest, arg)
  {
    var s := "{0}" + rest;
    assert s[..3] == "{0}";
    assert s[3..] == rest;
  }

  lemma SuffixHasNoPlaceholder(arg: string)
    ensures FormatMessage(MessageSuffix, arg) == MessageSuffix
  {
    assert '{' !in MessageSuffix;
    FormatLiteralPrefix(MessageSuffix, "", arg);
    assert MessageSuffix + "" == MessageSuffix;
  }

  /** The rule's message for a property named `identifier`. */
  lemma MessageOf(identifier: string)
    ensures FormatMessage(MessageFormat, identifier) == "Property '" + identifier + "' must be virtual"
  {
    var tail := "{0}" + MessageSuffix;
    assert MessageFormat == MessagePrefix + tail;
    assert '{' !in MessagePrefix;
    FormatLiteralPrefix(MessagePrefix, tail, identifier);
    FormatPlaceholder(MessageSuffix, identifier);
    SuffixHasNoPlaceholder(identifier);
  }

  /** `Diagnostic.Create(descriptor, location, arg)`. */
  function CreateDiagnostic(descriptor: DiagnosticDescriptor, location: MemberPath, arg: string): Diagnostic
  {
    Diagnostic(descriptor.id, descriptor.defaultSeverity, FormatMessage(descriptor.messageFormat, arg), location)
  }

  // ----- The base-type chain -----

  /** `chain` lists `t`, then each successive base type, and ends at a type without a base. */
  ghost predicate IsBaseChain(types: SymbolTable, t: TypeId, chain: seq<TypeId>)
  {
    && |chain| > 0 && chain[0] == t
    && (forall i | 0 <= i < |chain| :: chain[i] < |types|)
    && (forall i, j | 0 <= i < j < |chain| && j == i + 1 :: types[chain[i]].baseType == Some(chain[j]))
    && types[chain[|chain| - 1]].baseType.None?
  }

  /** The number of base-type links above `t`. */
  function Depth(types: SymbolTable, t: TypeId): nat
    requires WellFormed(types) && t < |types|
    decreases t
  {
    match types[t].baseType
    case None => 0
    case Some(b) => 1 + Depth(types, b)
  }

  /** The sequence the `AncestorsAndSelf` iterator yields. */
  function AncestorsAndSelf(types: SymbolTable, t: TypeId): (chain: seq<TypeId>)
    requires WellFormed(types) && t < |types|
    ensures |chain| == Depth(types, t) + 1
    ensures chain[0] == t && forall i | 0 <= i < |chain| :: chain[i] < |types|
    decreases t
  {
    match types[t].baseType
    case None => [t]
    case Some(b) => [t] + AncestorsAndSelf(types, b)
  }

  /** `AncestorsAndSelf` yields the type, then each successive base type,
      and stops exactly at the type whose base is null. */
  lemma {:induction false} AncestorsAndSelfIsBaseChain(types: SymbolTable, t: TypeId)
    requires WellFormed(types) && t < |types|
    ensures IsBaseChain(types, t, AncestorsAndSelf(types, t))
    decreases t
  {
    var chain := AncestorsAndSelf(types, t);
    match types[t].baseType
    case None =>
    case Some(b) =>
      AncestorsAndSelfIsBaseChain(types, b);
      var rest := AncestorsAndSelf(types, b);
      assert chain == [t] + rest;
      forall i, j | 0 <= i < j < |chain| && j == i + 1
        ensures types[chain[i]].baseType == Some(chain[j])
      {
        if i > 0 {
          assert chain[i] == rest[i - 1] && chain[j] == rest[j - 1];
        }
      }
  }

  /** The base-type chain is determined by its start. */
  lemma {:induction false} BaseChainUnique(types: SymbolTable, t: TypeId, chain: seq<TypeId>)
    requires WellFormed(types) && t < |types|
    requires IsBaseChain(types, t, chain)
    ensures chain == AncestorsAndSelf(types, t)
    decreases t
  {
    if |chain| == 1 {
      assert types[t].baseType.None?;
    } else {
      var b := chain[1];
      assert types[t].baseType == Some(b);
      var tail := chain[1..];
      assert IsBaseChain(types, b, tail);
      BaseChainUnique(types, b, tail);
    }
  }

  /** What is left of the chain from `current` on (nothing once it is null). */
  ghost function RemainingChain(types: SymbolTable, current: Option<TypeId>): seq<TypeId>
    requires WellFormed(types) && (current.Some? ==> current.value < |types|)
  {
    match current
    case None => []
    case Some(c) => AncestorsAndSelf(types, c)
  }

  lemma WalkStep(types: SymbolTable, done: seq<TypeId>, c: TypeId)
    requires WellFormed(types) && c < |types|
    ensures types[c].baseType.Some? ==> types[c].baseType.value < c
    ensures done + RemainingChain(types, Some(c)) == (done + [c]) + RemainingChain(types, types[c].baseType)
  {
    assert AncestorsAndSelf(types, c) == [c] + RemainingChain(types, types[c].baseType);
  }

  /** The `AncestorsAndSelf` walk: `current` starts at the type and moves to
      its base type until it is null, yielding each type on the way. */
  method WalkAncestorsAndSelf(types: SymbolTable, t: TypeId) returns (chain: seq<TypeId>)
    requires WellFormed(types) && t < |types|
    ensures chain == AncestorsAndSelf(types, t)
  {
    chain := [];
    var current: Option<TypeId> := Some(t);
    while current.Some?
      invariant current.Some? ==> current.value < |types|
      invariant chain + RemainingChain(types, current) == AncestorsAndSelf(types, t)
      decreases if current.Some? then current.value + 1 else 0
    {
      var c := current.value;
      WalkStep(types, chain, c);
      chain := chain + [c];
      current := types[c].baseType;
    }
  }

  // ----- Scope of the rule -----

  predicate IsMarkerAttribute(types: SymbolTable, a: AttributeData)
  {
    && a.attributeClass < |types|
    && types[a.attributeClass].name == MarkerAttributeName
    && InNamespaceNamed(types, a.attributeClass, MarkerNamespaceName)
  }

  /** `t` itself carries the marker attribute. */
  predicate CarriesMarker(types: SymbolTable, t: TypeId)
    requires t < |types|
  {
    exists j | 0 <= j < |types[t].attributes| :: IsMarkerAttribute(types, types[t].attributes[j])
  }

  /** `chain.SelectMany(GetAttributes).Any(marker)`. */
  function AnyCarriesMarker(types: SymbolTable, chain: seq<TypeId>): (b: bool)
    requires forall i | 0 <= i < |chain| :: chain[i] < |types|
    ensures b <==> exists i :: 0 <= i < |chain| && CarriesMarker(types, chain[i])
  {
    if chain == [] then false
    else CarriesMarker(types, chain[0]) || AnyCarriesMarker(types, chain[1..])
  }

  /** The class is NHibernate-enabled: some type of its chain carries the marker. */
  function IsNHibernateClass(types: SymbolTable, t: TypeId): bool
    requires WellFormed(types) && t < |types|
  {
    AnyCarriesMarker(types, AncestorsAndSelf(types, t))
  }

  /** `t` is `a` or derives, directly or not, from `a`. */
  ghost predicate DerivesFromOrIs(types: SymbolTable, t: TypeId, a: TypeId)
    requires WellFormed(types) && t < |types|
    decreases t
  {
    t == a || (types[t].baseType.Some? && DerivesFromOrIs(types, types[t].baseType.value, a))
  }

  /** One step of the chain: a class is NHibernate-enabled when it carries
      the marker or its base class is NHibernate-enabled. */
  lemma ScopeStep(types: SymbolTable, t: TypeId)
    requires WellFormed(types) && t < |types|
    ensures IsNHibernateClass(types, t) <==>
              CarriesMarker(types, t)
              || (types[t].baseType.Some? && IsNHibernateClass(types, types[t].baseType.value))
  {
    var chain := AncestorsAndSelf(types, t);
    if types[t].baseType.Some? {
      assert chain[1..] == AncestorsAndSelf(types, types[t].baseType.value);
    } else {
      assert chain[1..] == [];
    }
  }

  /** A class is NHibernate-enabled exactly when it is, or derives from, a marked type. */
  lemma {:induction false} NHibernateClassIffMarkedAncestor(types: SymbolTable, t: TypeId)
    requires WellFormed(types) && t < |types|
    ensures IsNHibernateClass(types, t) <==>
              exists a :: 0 <= a < |types| && DerivesFromOrIs(types, t, a) && CarriesMarker(types, a)
    decreases t
  {
    ScopeStep(types, t);
    assert DerivesFromOrIs(types, t, t);
    if types[t].baseType.Some? {
      var b := types[t].baseType.value;
      NHibernateClassIffMarkedAncestor(types, b);
      if IsNHibernateClass(types, b) {
        var a :| 0 <= a < |types| && DerivesFromOrIs(types, b, a) && CarriesMarker(types, a);
        assert DerivesFromOrIs(types, t, a);
      }
    }
  }

  /** A subclass of an NHibernate-enabled class is NHibernate-enabled
      without carrying the marker itself. */
  lemma SubclassInheritsScope(types: SymbolTable, t: TypeId)
    requires WellFormed(types) && t < |types|
    requires types[t].baseType.Some? && IsNHibernateClass(types, types[t].baseType.value)
    ensures IsNHibernateClass(types, t)
  {
    var b := types[t].baseType.value;
    var rest := AncestorsAndSelf(types, b);
    var i :| 0 <= i < |rest| && CarriesMarker(types, rest[i]);
    assert AncestorsAndSelf(types, t)[i + 1] == rest[i];
  }

  // ----- The analysis of one property declaration -----

  /** `IsVirtual || IsOverride || IsAbstract` of the declared property symbol. */
  predicate IsVirtualLike(m: MemberDecl)
  {
    Virtual in m.modifiers || Override in m.modifiers || Abstract in m.modifiers
  }

  /** What the driver guarantees when it calls the analysis on a node:
      the node is a property declaration and its class has a symbol. */
  ghost predicate AnalyzablePropertyAt(types: SymbolTable, unit: CompilationUnit, path: MemberPath)
  {
    && WellFormed(types)
    && ValidMemberPath(unit, path)
    && MemberAt(unit, path).PropertyDecl?
    && ClassSymbol(types, unit, path.ns, path.cls).Some?
  }

  /** The diagnostic, if any, that `AnalyzeProperty` reports for the property at `path`. */
  function PropertyDiagnostic(types: SymbolTable, unit: CompilationUnit, path: MemberPath): (r: Option<Diagnostic>)
    requires AnalyzablePropertyAt(types, unit, path)
    ensures r.Some? <==>
              IsNHibernateClass(types, ClassSymbol(types, unit, path.ns, path.cls).value)
              && !IsVirtualLike(MemberAt(unit, path))
    ensures r.Some? ==>
              r.value == Diagnostic("NHibernateAnalyzers", Error,
                                    "Property '" + MemberAt(unit, path).identifier + "' must be virtual", path)
  {
    var property := MemberAt(unit, path);
    var classSymbol := ClassSymbol(types, unit, path.ns, path.cls).value;
    if !IsNHibernateClass(types, classSymbol) then None
    else if IsVirtualLike(property) then None
    else
      MessageOf(property.identifier);
      Some(CreateDiagnostic(Rule, path, property.identifier))
  }

  /** `AnalyzeProperty`: walk the class's chain, decide whether it is in
      scope, then whether the property is virtual, and report. */
  method AnalyzeProperty(types: SymbolTable, unit: CompilationUnit, path: MemberPath)
    returns (reported: Option<Diagnostic>)
    requires AnalyzablePropertyAt(types, unit, path)
    ensures reported == PropertyDiagnostic(types, unit, path)
  {
    var property := MemberAt(unit, path);
    var classSymbol := ClassSymbol(types, unit, path.ns, path.cls).value;
    var chain := WalkAncestorsAndSelf(types, classSymbol);
    var isNHibernateClass := AnyCarriesMarker(types, chain);
    if !isNHibernateClass {
      return None;
    }
    var isVirtual := Virtual in property.modifiers || Override in property.modifiers || Abstract in property.modifiers;
    if isVirtual {
      return None;
    }
    reported := Some(CreateDiagnostic(Rule, path, property.identifier));
  }

  /** The analysis driver on one member node: the registered action runs on
      property declarations only. */
  method AnalyzeNode(types: SymbolTable, unit: CompilationUnit, path: MemberPath)
    returns (reported: Option<Diagnostic>)
    requires WellFormed(types) && ValidMemberPath(unit, path)
    requires MemberAt(unit, path).PropertyDecl? ==> ClassSymbol(types, unit, path.ns, path.cls).Some?
    ensures KindOf(MemberAt(unit, path)) != AnalyzedKind ==> reported.None?
    ensures MemberAt(unit, path).PropertyDecl? ==> reported == PropertyDiagnostic(types, unit, path)
  {
    if KindOf(MemberAt(unit, path)) == AnalyzedKind {
      reported := AnalyzeProperty(types, unit, path);
    } else {
      reported := None;
    }
  }
}
