/** Worked examples over the demo solution's own declarations: the
    NHibernate-marked `Domain.BaseEntity` with its abstract `Id`, a command
    `CreateOrder : Command`, and the open generic `CommandHandler<TCommand>`. */
module Fixtures {
  import opened Common
  import opened Symbols
  import opened Syntax
  import Analyzer = PropertyMustBeVirtualAnalyzer
  import Refactoring = CreateCommandHandlerRefactoring
  import MassiveRename
  import CE = CompilationExtensions
  import Fix = PropertyMustBeVirtualCodeFix

  const SystemNs: Namespace := ["System"]
  const DomainNs: Namespace := ["Domain"]
  const CommandsNs: Namespace := ["Commands"]
  const HandlersNs: Namespace := ["CommandHandlers"]

  /** 0 object, 1 ValueType, 2 Guid, 3 Attribute, 4 NHibernateAttribute,
      5 BaseEntity, 6 Order, 7 Command, 8 CreateOrder,
      9 CommandHandler<TCommand>. */
  const Types: SymbolTable := [
    TypeSymbol("Object", Some(SystemNs), NamedType, 0, None, []),
    TypeSymbol("ValueType", Some(SystemNs), NamedType, 0, Some(0), []),
    TypeSymbol("Guid", Some(SystemNs), NamedType, 0, Some(1), []),
    TypeSymbol("Attribute", Some(SystemNs), NamedType, 0, Some(0), []),
    TypeSymbol("NHibernateAttribute", Some(DomainNs), NamedType, 0, Some(3), []),
    TypeSymbol("BaseEntity", Some(DomainNs), NamedType, 0, Some(0), [AttributeData(4)]),
    TypeSymbol("Order", Some(DomainNs), NamedType, 0, Some(5), []),
    TypeSymbol("Command", Some(CommandsNs), NamedType, 0, Some(0), []),
    TypeSymbol("CreateOrder", Some(CommandsNs), NamedType, 0, Some(7), []),
    TypeSymbol("CommandHandler", Some(HandlersNs), NamedType, 1, Some(0), [])
  ]

  /** `[NHibernate] public abstract class BaseEntity { public abstract Guid Id { get; protected set; } }`
      and `public class Order : BaseEntity { public string Customer { get; set; } string Note { get; set; } }`. */
  const DomainUnit: CompilationUnit := CompilationUnit([
    NamespaceDecl(DomainNs, [], [
      ClassDecl([Public, Abstract], "BaseEntity", [], [],
                [PropertyDecl([Public, Abstract], TypeName(2), "Id")]),
      ClassDecl([Public], "Order", [], [TypeName(5)],
                [PropertyDecl([Public], PredefinedType("string"), "Customer"),
                 PropertyDecl([], PredefinedType("string"), "Note")])
    ])
  ])

  const CommandsUnit: CompilationUnit := CompilationUnit([
    NamespaceDecl(CommandsNs, [], [
      ClassDecl([Public], "Command", [], [], []),
      ClassDecl([Public], "CreateOrder", [], [TypeName(7)], [])
    ])
  ])

  /** The types every project sees through its reference to the core library. */
  const CoreLibrary: seq<TypeId> := [0, 1, 2, 3]

  const Demo: Solution := Solution([
    Project("Domain", [Document("Order.cs", DomainUnit)], [4, 5, 6], CoreLibrary),
    Project("Commands", [Document("CreateOrder.cs", CommandsUnit)], [7, 8], CoreLibrary),
    Project("CommandHandlers", [], [9], CoreLibrary)
  ])

  lemma TypesWellFormed()
    ensures WellFormed(Types)
  {
  }

  /** `Order` is in scope through its marked base class. */
  lemma {:induction false} OrderIsInScope()
    ensures Analyzer.AncestorsAndSelf(Types, 6) == [6, 5, 0]
    ensures Analyzer.IsNHibernateClass(Types, 6)
  {
    TypesWellFormed();
    assert Analyzer.AncestorsAndSelf(Types, 0) == [0];
    assert Analyzer.AncestorsAndSelf(Types, 5) == [5, 0];
    BaseEntityIsMarked();
    Analyzer.SubclassInheritsScope(Types, 6);
  }

  lemma BaseEntityIsMarked()
    ensures WellFormed(Types) && Analyzer.IsNHibernateClass(Types, 5)
  {
    TypesWellFormed();
    assert Analyzer.CarriesMarker(Types, 5) by {
      assert Analyzer.IsMarkerAttribute(Types, Types[5].attributes[0]);
    }
    Analyzer.ScopeStep(Types, 5);
  }

  /** A declaration binds to a type of its name, namespace and arity when
      no earlier type of the table has that name. */
  lemma BindsTo(types: SymbolTable, ns: Namespace, identifier: string, arity: nat, t: TypeId)
    requires t < |types| && Declares(types[t], ns, identifier, arity)
    requires forall u | 0 <= u < t :: types[u].name != identifier
    ensures DeclaredType(types, ns, identifier, arity) == Some(t)
  {
  }

  /** The binder's view of the declarations: each class declaration gets
      its own symbol. */
  lemma DomainBindings()
    ensures ClassSymbol(Types, DomainUnit, 0, 0) == Some(5)
    ensures ClassSymbol(Types, DomainUnit, 0, 1) == Some(6)
  {
    BindsTo(Types, DomainNs, "BaseEntity", 0, 5);
    BindsTo(Types, DomainNs, "Order", 0, 6);
  }

  lemma CommandBindings()
    ensures ClassSymbol(Types, CommandsUnit, 0, 0) == Some(7)
    ensures ClassSymbol(Types, CommandsUnit, 0, 1) == Some(8)
  {
    BindsTo(Types, CommandsNs, "Command", 0, 7);
    BindsTo(Types, CommandsNs, "CreateOrder", 0, 8);
  }

  /** The abstract `Id` of `BaseEntity` is not reported. */
  lemma {:induction false} AbstractIdNotReported()
    ensures Analyzer.AnalyzablePropertyAt(Types, DomainUnit, MemberPath(0, 0, 0))
            && Analyzer.PropertyDiagnostic(Types, DomainUnit, MemberPath(0, 0, 0)).None?
  {
    TypesWellFormed();
    DomainBindings();
    assert Analyzer.IsVirtualLike(MemberAt(DomainUnit, MemberPath(0, 0, 0)));
  }

  /** Both properties of `Order` are analysed, in an NHibernate class. */
  lemma OrderPropertyInScope(p: MemberPath)
    requires p == MemberPath(0, 1, 0) || p == MemberPath(0, 1, 1)
    ensures Analyzer.AnalyzablePropertyAt(Types, DomainUnit, p)
    ensures Analyzer.IsNHibernateClass(Types, ClassSymbol(Types, DomainUnit, p.ns, p.cls).value)
  {
    TypesWellFormed();
    DomainBindings();
    OrderIsInScope();
  }

  /** The plain `Customer` of `Order` is reported, through the marker on `BaseEntity`. */
  lemma {:induction false} CustomerReported()
    ensures Analyzer.AnalyzablePropertyAt(Types, DomainUnit, MemberPath(0, 1, 0))
            && Analyzer.PropertyDiagnostic(Types, DomainUnit, MemberPath(0, 1, 0))
               == Some(Analyzer.Diagnostic("NHibernateAnalyzers", Analyzer.Error,
                                           "Property '" + "Customer" + "' must be virtual", MemberPath(0, 1, 0)))
  {
    OrderPropertyInScope(MemberPath(0, 1, 0));
    assert MemberAt(DomainUnit, MemberPath(0, 1, 0)) == PropertyDecl([Public], PredefinedType("string"), "Customer");
    assert !Analyzer.IsVirtualLike(MemberAt(DomainUnit, MemberPath(0, 1, 0)));
  }

  /** `Note`, written without modifiers, is reported too, but the fix as
      written throws on it: its span starts at the type `string`. */
  lemma {:induction false} NoteFixThrows()
    ensures Analyzer.AnalyzablePropertyAt(Types, DomainUnit, MemberPath(0, 1, 1))
            && Analyzer.PropertyDiagnostic(Types, DomainUnit, MemberPath(0, 1, 1)).Some?
            && var d := Analyzer.PropertyDiagnostic(Types, DomainUnit, MemberPath(0, 1, 1)).value;
               && ValidMemberPath(DomainUnit, d.location)
               && Fix.RegisterCodeFixesAsWritten(Fix.DiagnosticContext(Demo.projects[0].documents[0], d))
                  == Failure(NullReference)
  {
    OrderPropertyInScope(MemberPath(0, 1, 1));
    assert MemberAt(DomainUnit, MemberPath(0, 1, 1)) == PropertyDecl([], PredefinedType("string"), "Note");
    assert !Analyzer.IsVirtualLike(MemberAt(DomainUnit, MemberPath(0, 1, 1)));
    Fix.UnmodifiedPropertyFixThrows(Types, DomainUnit, MemberPath(0, 1, 1), Demo.projects[0].documents[0]);
  }

  lemma CommandResolved()
    ensures Refactoring.ResolvedCommandType(Types, Demo, OnCreateOrder) == Success(Some(7))
    ensures Refactoring.ResolvedCommandType(Types, Demo, OnCommand) == Success(Some(7))
    ensures Refactoring.ResolvedCommandType(Types, Demo, OnBaseEntity) == Success(None)
  {
    CommandsCompilationResolves();
    DomainCompilationResolves();
  }

  lemma CommandsCompilationResolves()
    ensures CE.CommandBaseTypeSymbol(Types, [7, 8]) == Success(Some(7))
  {
    assert CE.IsCommandBaseType(Types, 7);
    assert !CE.IsCommandBaseType(Types, 8);
  }

  lemma DomainCompilationResolves()
    ensures CE.CommandBaseTypeSymbol(Types, [4, 5, 6]) == Success(None)
  {
    assert !CE.IsCommandBaseType(Types, 4) && !CE.IsCommandBaseType(Types, 5) && !CE.IsCommandBaseType(Types, 6);
  }

  const OnCreateOrder := Refactoring.RefactoringContext(1, 0, ClassNode(0, 1))
  const OnCommand := Refactoring.RefactoringContext(1, 0, ClassNode(0, 0))
  const OnBaseEntity := Refactoring.RefactoringContext(0, 0, ClassNode(0, 0))

  lemma ContextsValid()
    ensures Refactoring.ValidContext(Types, Demo, OnCreateOrder)
            && Refactoring.SelectedClassSymbol(Types, Demo, OnCreateOrder) == 8
    ensures Refactoring.ValidContext(Types, Demo, OnCommand)
            && Refactoring.SelectedClassSymbol(Types, Demo, OnCommand) == 7
    ensures Refactoring.ValidContext(Types, Demo, OnBaseEntity)
            && Refactoring.SelectedClassSymbol(Types, Demo, OnBaseEntity) == 5
  {
    TypesWellFormed();
    CommandBindings();
    DomainBindings();
    assert Demo.projects[1].documents[0].root == CommandsUnit;
    assert Demo.projects[0].documents[0].root == DomainUnit;
  }

  /** On `CreateOrder` the refactoring is offered. */
  lemma {:induction false} RefactoringOfferedOnCommand()
    ensures Refactoring.ValidContext(Types, Demo, OnCreateOrder)
            && Refactoring.ComputeRefactorings(Types, Demo, OnCreateOrder)
               == Success([Refactoring.CodeAction("Create command handler", 8)])
  {
    ContextsValid();
    CommandResolved();
    assert Types[8].baseType == Some(7);
    var r := Refactoring.ComputeRefactorings(Types, Demo, OnCreateOrder);
    assert r.Success? && |r.value| == 1;
  }

  /** On `Command` itself, whose base type is `object`, it is not. */
  lemma {:induction false} RefactoringNotOfferedOnBase()
    ensures Refactoring.ValidContext(Types, Demo, OnCommand)
            && Refactoring.ComputeRefactorings(Types, Demo, OnCommand) == Success([])
  {
    ContextsValid();
    CommandResolved();
    assert Types[7].baseType == Some(0);
    var r := Refactoring.ComputeRefactorings(Types, Demo, OnCommand);
    assert r.Success? && |r.value| == 0;
  }

  /** In the `Domain` project, which has no `Command` type, it is not
      offered on `BaseEntity`. */
  lemma {:induction false} RefactoringNotOfferedWithoutCommandType()
    ensures Refactoring.ValidContext(Types, Demo, OnBaseEntity)
            && Refactoring.ComputeRefactorings(Types, Demo, OnBaseEntity) == Success([])
  {
    ContextsValid();
    CommandResolved();
    Refactoring.NoCommandTypeOffersNothing(Types, Demo, OnBaseEntity);
  }

  /** Invoking it adds `CreateOrderHandler.cs` to the `CommandHandlers` project. */
  lemma {:induction false} HandlerCreated()
    ensures Refactoring.CreateCommandHandler(Types, Demo, 8).Success?
    ensures Refactoring.CreateCommandHandler(Types, Demo, 8).value.projects[2].documents[0].name
            == "CreateOrderHandler.cs"
  {
    TypesWellFormed();
    HandlersProjectFound();
    HandlerBaseFound();
  }

  lemma HandlersProjectFound()
    ensures Refactoring.HandlersProject(Demo) == Success(2)
  {
    assert Demo.projects[2].name == "CommandHandlers";
    assert Demo.projects[0].name != "CommandHandlers";
    assert Demo.projects[1].name != "CommandHandlers";
  }

  /** `CommandHandler<TCommand>` is the one match among the types the
      handlers project sees. */
  lemma HandlerBaseFound()
    ensures Refactoring.HandlerBase(Types, Demo) == Success(9)
  {
    HandlersProjectFound();
    var visible := Refactoring.VisibleTypes(Demo.projects[2]);
    assert visible == [9, 0, 1, 2, 3];
    assert CE.IsCommandHandlerBaseType(Types, 9);
    assert forall k | 1 <= k < |visible| :: !CE.IsCommandHandlerBaseType(Types, visible[k]);
  }

  const Renamable: MassiveRename.Solution := MassiveRename.Solution([
    MassiveRename.Project([MassiveRename.Document([MassiveRename.ClassSymbol([
      MassiveRename.FieldSymbol("__count", false),
      MassiveRename.FieldSymbol("name", false),
      MassiveRename.OtherMemberSymbol("_Run"),
      MassiveRename.FieldSymbol("_id", false)
    ])])])
  ])

  /** `__count` needs two passes, `_id` one; the method `_Run` is not a field. */
  lemma {:induction false} RenameExample()
    ensures MassiveRename.Total(Renamable) == 3
    ensures MassiveRename.Normalized(Renamable) == MassiveRename.Solution([
      MassiveRename.Project([MassiveRename.Document([MassiveRename.ClassSymbol([
        MassiveRename.FieldSymbol("count", false),
        MassiveRename.FieldSymbol("name", false),
        MassiveRename.OtherMemberSymbol("_Run"),
        MassiveRename.FieldSymbol("id", false)
      ])])])
    ])
  {
    var c := Renamable.projects[0].documents[0].classes[0];
    assert MassiveRename.LeadingUnderscores("__count") == 2 by {
      assert "__count"[1..] == "_count";
      assert "_count"[1..] == "count";
    }
    assert MassiveRename.LeadingUnderscores("_id") == 1 by {
      assert "_id"[1..] == "id";
    }
    assert MassiveRename.ClassTotal(c) == 3 by {
      assert c.members[1..][1..][1..][1..] == [];
    }
    assert MassiveRename.StripLeadingUnderscores("__count") == "count" by {
      assert "__count"[1..] == "_count";
      assert "_count"[1..] == "count";
    }
    assert MassiveRename.StripLeadingUnderscores("_id") == "id" by {
      assert "_id"[1..] == "id";
    }
    var c' := MassiveRename.ClassSymbol([
      MassiveRename.FieldSymbol("count", false),
      MassiveRename.FieldSymbol("name", false),
      MassiveRename.OtherMemberSymbol("_Run"),
      MassiveRename.FieldSymbol("id", false)
    ]);
    assert MassiveRename.NormalizeClass(c) == c';
    var d' := MassiveRename.Document([c']);
    assert MassiveRename.NormalizeDocument(Renamable.projects[0].documents[0]) == d';
    assert MassiveRename.NormalizeProject(Renamable.projects[0]) == MassiveRename.Project([d']);
  }

  /** The first pass renames `__count` to `_count`, which still qualifies:
      the number of fields with an underscore does not drop, the number of
      underscores does. */
  lemma {:induction false} FirstPass()
    ensures MassiveRename.FirstCandidate(Renamable) == Some(MassiveRename.FieldPosition(0, 0, 0, 0))
    ensures var step := MassiveRename.RenameOneSymbol(Renamable);
            && step.0
            && MassiveRename.ValidPosition(step.1, MassiveRename.FieldPosition(0, 0, 0, 0))
            && MassiveRename.MemberAt(step.1, MassiveRename.FieldPosition(0, 0, 0, 0)) == MassiveRename.FieldSymbol("_count", false)
            && MassiveRename.IsCandidateAt(step.1, MassiveRename.FieldPosition(0, 0, 0, 0))
  {
    var p := MassiveRename.FieldPosition(0, 0, 0, 0);
    assert MassiveRename.IsCandidateAt(Renamable, p);
    MassiveRename.HasCandidateIffSomePosition(Renamable);
    assert MassiveRename.NewName("__count") == "_count";
  }
}
