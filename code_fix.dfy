/** The "Make virtual" fix for the "property must be virtual" diagnostic:
    it appends `virtual` to the property's modifiers and swaps the
    document's syntax root for the edited one. */
module PropertyMustBeVirtualCodeFix {
  import opened Common
  import opened Symbols
  import opened Syntax
  import Analyzer = PropertyMustBeVirtualAnalyzer

  const FixTitle: string := "Make virtual"

  function FixableDiagnosticIds(): seq<string>
  {
    [Analyzer.DiagnosticId]
  }

  /** The provider fixes the analyzer's diagnostic and no other. */
  function CanFix(id: string): (b: bool)
    ensures b <==> id == Analyzer.Rule.id
  {
    id in FixableDiagnosticIds()
  }

  /** `context.Document`, the node that `context.Span.Start` falls in (the
      parent of the token found there), and `context.Diagnostics`. */
  datatype CodeFixContext = CodeFixContext(
    document: Document,
    spanStartNode: NodeRef,
    diagnostics: seq<Analyzer.Diagnostic>)

  /** A code action that, when invoked, yields `changedDocument`. */
  datatype CodeAction = CodeAction(title: string, equivalenceKey: string, changedDocument: Document)

  datatype RegisteredCodeFix = RegisteredCodeFix(action: CodeAction, diagnostic: Analyzer.Diagnostic)

  /** `AddModifiers(token)`: the same declaration with one more modifier at the end. */
  function AddModifier(m: MemberDecl, modifier: Modifier): (r: MemberDecl)
    ensures r.modifiers == m.modifiers + [modifier]
    ensures r.(modifiers := m.modifiers) == m
  {
    m.(modifiers := m.modifiers + [modifier])
  }

  /** `before` and `after` are the same tree except, possibly, for the member at `p`. */
  ghost predicate AgreeExceptAt(before: CompilationUnit, after: CompilationUnit, p: MemberPath)
  {
    && ValidMemberPath(before, p) && ValidMemberPath(after, p)
    && |after.members| == |before.members|
    && (forall n | 0 <= n < |before.members| ::
          && after.members[n].name == before.members[n].name
          && after.members[n].usings == before.members[n].usings
          && |after.members[n].members| == |before.members[n].members|)
    && (forall n, c | 0 <= n < |before.members| && 0 <= c < |before.members[n].members| ::
          && ClassAt(after, n, c).(members := []) == ClassAt(before, n, c).(members := [])
          && |ClassAt(after, n, c).members| == |ClassAt(before, n, c).members|)
    && (forall q | ValidMemberPath(before, q) && q != p ::
          ValidMemberPath(after, q) && MemberAt(after, q) == MemberAt(before, q))
  }

  /** `root.ReplaceNode(old, new)` for the member node at `p`. */
  function ReplaceMember(unit: CompilationUnit, p: MemberPath, m: MemberDecl): (r: CompilationUnit)
    requires ValidMemberPath(unit, p)
    ensures AgreeExceptAt(unit, r, p)
    ensures MemberAt(r, p) == m
  {
    var ns := unit.members[p.ns];
    var cls := ns.members[p.cls];
    unit.(members := unit.members[p.ns := ns.(members := ns.members[p.cls := cls.(members := cls.members[p.member := m])])])
  }

  /** What the source takes for granted and does not check: a diagnostic
      to fix, and a property declaration as the node at the span's start. */
  predicate CanRegister(context: CodeFixContext)
  {
    && |context.diagnostics| > 0
    && context.spanStartNode.MemberNode?
    && ValidMemberPath(context.document.root, context.spanStartNode.path)
    && MemberAt(context.document.root, context.spanStartNode.path).PropertyDecl?
  }

  /** `RegisterCodeFixesAsync`: the code fixes it registers. */
  function RegisterCodeFixes(context: CodeFixContext): (fixes: seq<RegisteredCodeFix>)
    requires CanRegister(context)
    ensures |fixes| == 1
    ensures fixes[0].action.title == "Make virtual" && fixes[0].action.equivalenceKey == "Make virtual"
    ensures fixes[0].diagnostic == context.diagnostics[0]
    ensures var p, changed := context.spanStartNode.path, fixes[0].action.changedDocument;
            && changed.name == context.document.name
            && AgreeExceptAt(context.document.root, changed.root, p)
            && MemberAt(changed.root, p) == AddModifier(MemberAt(context.document.root, p), Virtual)
  {
    var root := context.document.root;
    var diagnostic := context.diagnostics[0];
    var path := context.spanStartNode.path;
    var property := MemberAt(root, path);
    var virtualProperty := AddModifier(property, Virtual);
    var newRoot := ReplaceMember(root, path, virtualProperty);
    [RegisteredCodeFix(CodeAction(FixTitle, FixTitle, context.document.(root := newRoot)), diagnostic)]
  }

  /** The parent of the first token of the member at `path`.  Members
      carry no attribute lists in this model, so that token is the first
      modifier, whose parent is the declaration; without modifiers it is the
      first token of the declared type, whose parent is the type's node. */
  function SpanStartNode(unit: CompilationUnit, path: MemberPath): NodeRef
    requires ValidMemberPath(unit, path)
  {
    if MemberAt(unit, path).modifiers != [] then MemberNode(path) else OtherNode
  }

  /** The context the host passes for one diagnostic: its document, the
      node at the start of its span and the diagnostic itself. */
  function DiagnosticContext(document: Document, d: Analyzer.Diagnostic): CodeFixContext
    requires ValidMemberPath(document.root, d.location)
  {
    CodeFixContext(document, SpanStartNode(document.root, d.location), [d])
  }

  /** A reported property meets the fix's assumptions exactly when it has
      a modifier: only then does the span start in the property's own node. */
  lemma DiagnosticLocationIsFixable(types: SymbolTable, unit: CompilationUnit, path: MemberPath, document: Document)
    requires Analyzer.AnalyzablePropertyAt(types, unit, path)
    requires document.root == unit
    requires Analyzer.PropertyDiagnostic(types, unit, path).Some?
    ensures var d := Analyzer.PropertyDiagnostic(types, unit, path).value;
            && CanFix(d.id)
            && ValidMemberPath(unit, d.location)
            && (CanRegister(DiagnosticContext(document, d)) <==> MemberAt(unit, path).modifiers != [])
            && (CanRegister(DiagnosticContext(document, d)) ==> DiagnosticContext(document, d).spanStartNode.path == path)
  {
  }

  /** `RegisterCodeFixesAsync` as written, on any context: `First()` throws
      on no diagnostics, and the `as` cast yields null, dereferenced by
      `AddModifiers`, when the span does not start in a property's node. */
  function RegisterCodeFixesAsWritten(context: CodeFixContext): (r: Result<seq<RegisteredCodeFix>, Exception>)
    ensures r.Success? <==> CanRegister(context)
    ensures r.Failure? ==> r.error == if |context.diagnostics| == 0 then NoMatchingElement else NullReference
    ensures r.Success? ==> r.value == RegisterCodeFixes(context)
  {
    if |context.diagnostics| == 0 then Failure(NoMatchingElement)
    else if !CanRegister(context) then Failure(NullReference)
    else Success(RegisterCodeFixes(context))
  }

  /** The fix as written throws for every reported property without modifiers. */
  lemma UnmodifiedPropertyFixThrows(types: SymbolTable, unit: CompilationUnit, path: MemberPath, document: Document)
    requires Analyzer.AnalyzablePropertyAt(types, unit, path)
    requires document.root == unit
    requires Analyzer.PropertyDiagnostic(types, unit, path).Some?
    requires MemberAt(unit, path).modifiers == []
    ensures var d := Analyzer.PropertyDiagnostic(types, unit, path).value;
            && ValidMemberPath(document.root, d.location)
            && RegisterCodeFixesAsWritten(DiagnosticContext(document, d)) == Failure(NullReference)
  {
    DiagnosticLocationIsFixable(types, unit, path, document);
  }

  /** The fix located by the diagnostic's own location (`diagnosticSpan`),
      which the source computes and leaves unused. */
  function RegisterCodeFixesAt(document: Document, d: Analyzer.Diagnostic): (fixes: seq<RegisteredCodeFix>)
    requires ValidMemberPath(document.root, d.location) && MemberAt(document.root, d.location).PropertyDecl?
    ensures |fixes| == 1 && fixes[0].diagnostic == d
    ensures fixes[0].action.title == "Make virtual" && fixes[0].action.equivalenceKey == "Make virtual"
    ensures var changed := fixes[0].action.changedDocument;
            && changed.name == document.name
            && AgreeExceptAt(document.root, changed.root, d.location)
            && MemberAt(changed.root, d.location) == AddModifier(MemberAt(document.root, d.location), Virtual)
  {
    RegisterCodeFixes(CodeFixContext(document, MemberNode(d.location), [d]))
  }

  /** Located by the diagnostic, every reported property gets the fix, and
      the fix silences the rule there and changes no other verdict. */
  lemma {:induction false} EveryReportedPropertyIsFixed(types: SymbolTable, unit: CompilationUnit, path: MemberPath, document: Document)
    requires Analyzer.AnalyzablePropertyAt(types, unit, path)
    requires document.root == unit
    requires Analyzer.PropertyDiagnostic(types, unit, path).Some?
    ensures var d := Analyzer.PropertyDiagnostic(types, unit, path).value;
            && d.location == path && CanFix(d.id)
            && MemberAt(unit, path).PropertyDecl?
            && var newRoot := RegisterCodeFixesAt(document, d)[0].action.changedDocument.root;
               && Analyzer.AnalyzablePropertyAt(types, newRoot, path)
               && Analyzer.PropertyDiagnostic(types, newRoot, path).None?
               && forall q | Analyzer.AnalyzablePropertyAt(types, unit, q) && q != path ::
                    Analyzer.AnalyzablePropertyAt(types, newRoot, q)
                    && Analyzer.PropertyDiagnostic(types, newRoot, q) == Analyzer.PropertyDiagnostic(types, unit, q)
  {
    var d := Analyzer.PropertyDiagnostic(types, unit, path).value;
    FixSilencesRule(types, CodeFixContext(document, MemberNode(path), [d]));
  }

  /** After the fix the rule no longer fires on the fixed property, and
      every other property gets the same verdict as before. */
  lemma {:induction false} FixSilencesRule(types: SymbolTable, context: CodeFixContext)
    requires CanRegister(context)
    requires Analyzer.AnalyzablePropertyAt(types, context.document.root, context.spanStartNode.path)
    ensures var newRoot := RegisterCodeFixes(context)[0].action.changedDocument.root;
            var p := context.spanStartNode.path;
            && Analyzer.AnalyzablePropertyAt(types, newRoot, p)
            && Analyzer.PropertyDiagnostic(types, newRoot, p).None?
            && forall q | Analyzer.AnalyzablePropertyAt(types, context.document.root, q) && q != p ::
                 Analyzer.AnalyzablePropertyAt(types, newRoot, q)
                 && Analyzer.PropertyDiagnostic(types, newRoot, q) == Analyzer.PropertyDiagnostic(types, context.document.root, q)
  {
    var root := context.document.root;
    var newRoot := RegisterCodeFixes(context)[0].action.changedDocument.root;
    var p := context.spanStartNode.path;
    ClassBindingUnchanged(types, root, newRoot, p, p.ns, p.cls);
    assert Virtual in MemberAt(newRoot, p).modifiers;
    forall q | Analyzer.AnalyzablePropertyAt(types, root, q) && q != p
      ensures Analyzer.AnalyzablePropertyAt(types, newRoot, q)
      ensures Analyzer.PropertyDiagnostic(types, newRoot, q) == Analyzer.PropertyDiagnostic(types, root, q)
    {
      ClassBindingUnchanged(types, root, newRoot, p, q.ns, q.cls);
    }
  }

  /** Editing a member leaves every class's name and namespace, hence its symbol, alone. */
  lemma ClassBindingUnchanged(types: SymbolTable, before: CompilationUnit, after: CompilationUnit, p: MemberPath, n: nat, c: nat)
    requires AgreeExceptAt(before, after, p)
    requires ValidClass(before, n, c)
    ensures ValidClass(after, n, c)
    ensures ClassSymbol(types, after, n, c) == ClassSymbol(types, before, n, c)
  {
    assert ClassAt(after, n, c).(members := []) == ClassAt(before, n, c).(members := []);
  }
}
