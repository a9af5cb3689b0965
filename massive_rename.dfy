/** MassiveRename: strips the leading underscores of field names across a
    solution by renaming one field at a time until no field qualifies, then
    writes the result back to the workspace once.

    A solution is modelled as nested sequences: projects hold documents,
    documents hold class symbols in descendant order of their declarations,
    classes hold their members in `GetMembers()` order. */
module MassiveRename {
  import opened Common
  import Linq

  datatype MemberSymbol =
    | FieldSymbol(name: string, isImplicitlyDeclared: bool)
    | OtherMemberSymbol(name: string)

  datatype ClassSymbol = ClassSymbol(members: seq<MemberSymbol>)
  datatype Document = Document(classes: seq<ClassSymbol>)
  datatype Project = Project(documents: seq<Document>)
  datatype Solution = Solution(projects: seq<Project>)

  /** Where a member sits: project, document, class declaration, member. */
  datatype FieldPosition = FieldPosition(project: nat, document: nat, cls: nat, member: nat)

  // ----- Sequence helpers -----

  function Sum<T>(xs: seq<T>, f: T -> nat): nat
    decreases |xs|
  {
    if |xs| == 0 then 0 else f(xs[0]) + Sum(xs[1..], f)
  }

  /** Replacing one element changes the sum by the difference of the two weights. */
  lemma {:induction false} SumUpdate<T>(xs: seq<T>, i: nat, x: T, f: T -> nat)
    requires i < |xs|
    ensures Sum(xs[i := x], f) + f(xs[i]) == Sum(xs, f) + f(x)
    decreases |xs|
  {
    if i > 0 {
      assert xs[i := x][1..] == xs[1..][i - 1 := x];
      SumUpdate(xs[1..], i - 1, x, f);
    }
  }

  lemma {:induction false} SumZero<T>(xs: seq<T>, f: T -> nat)
    ensures Sum(xs, f) == 0 <==> forall i | 0 <= i < |xs| :: f(xs[i]) == 0
    decreases |xs|
  {
    if |xs| > 0 {
      SumZero(xs[1..], f);
      assert forall i | 1 <= i < |xs| :: xs[i] == xs[1..][i - 1];
    }
  }

  function Map<T, U>(xs: seq<T>, f: T -> U): (r: seq<U>)
    ensures |r| == |xs| && forall i | 0 <= i < |xs| :: r[i] == f(xs[i])
  {
    seq(|xs|, i requires 0 <= i < |xs| => f(xs[i]))
  }

  lemma MapUpdateSame<T, U>(xs: seq<T>, i: nat, x: T, f: T -> U)
    requires i < |xs| && f(x) == f(xs[i])
    ensures Map(xs[i := x], f) == Map(xs, f)
  {
  }

  lemma MapFixed<T>(xs: seq<T>, f: T -> T)
    requires forall i | 0 <= i < |xs| :: f(xs[i]) == xs[i]
    ensures Map(xs, f) == xs
  {
  }

  // ----- Names -----

  /** `field.Name.StartsWith("_")`. */
  predicate StartsWithUnderscore(name: string)
  {
    |name| > 0 && name[0] == '_'
  }

  /** `field.Name.Substring(1)`. */
  function NewName(name: string): (r: string)
    requires |name| > 0
    ensures [name[0]] + r == name
  {
    name[1..]
  }

  function LeadingUnderscores(name: string): nat
  {
    if StartsWithUnderscore(name) then 1 + LeadingUnderscores(name[1..]) else 0
  }

  /** The name with every leading underscore removed: what repeated
      `Substring(1)` on an underscore-prefixed name ends with. */
  function StripLeadingUnderscores(name: string): (r: string)
    ensures LeadingUnderscores(name) <= |name| && r == name[LeadingUnderscores(name)..]
    ensures !StartsWithUnderscore(r)
  {
    if StartsWithUnderscore(name) then StripLeadingUnderscores(name[1..]) else name
  }

  // ----- Candidates -----

  /** A field that `RenameOneSymbol` would rename: declared in source and
      named with a leading underscore. */
  predicate IsCandidate(m: MemberSymbol)
  {
    m.FieldSymbol? && !m.isImplicitlyDeclared && StartsWithUnderscore(m.name)
  }

  predicate ClassHasCandidate(c: ClassSymbol)
  {
    exists m | 0 <= m < |c.members| :: IsCandidate(c.members[m])
  }

  predicate DocumentHasCandidate(d: Document)
  {
    exists k | 0 <= k < |d.classes| :: ClassHasCandidate(d.classes[k])
  }

  predicate ProjectHasCandidate(p: Project)
  {
    exists j | 0 <= j < |p.documents| :: DocumentHasCandidate(p.documents[j])
  }

  predicate HasCandidate(s: Solution)
  {
    exists i | 0 <= i < |s.projects| :: ProjectHasCandidate(s.projects[i])
  }

  ghost predicate ValidPosition(s: Solution, p: FieldPosition)
  {
    && p.project < |s.projects|
    && p.document < |s.projects[p.project].documents|
    && p.cls < |s.projects[p.project].documents[p.document].classes|
    && p.member < |s.projects[p.project].documents[p.document].classes[p.cls].members|
  }

  function MemberAt(s: Solution, p: FieldPosition): MemberSymbol
    requires ValidPosition(s, p)
  {
    s.projects[p.project].documents[p.document].classes[p.cls].members[p.member]
  }

  ghost predicate IsCandidateAt(s: Solution, p: FieldPosition)
  {
    ValidPosition(s, p) && IsCandidate(MemberAt(s, p))
  }

  /** The query's enumeration order: projects, then documents, then class
      declarations, then members. */
  predicate Before(p: FieldPosition, q: FieldPosition)
  {
    || p.project < q.project
    || (p.project == q.project && p.document < q.document)
    || (p.project == q.project && p.document == q.document && p.cls < q.cls)
    || (p.project == q.project && p.document == q.document && p.cls == q.cls && p.member < q.member)
  }

  lemma CandidateWitness(s: Solution, q: FieldPosition)
    requires IsCandidateAt(s, q)
    ensures ClassHasCandidate(s.projects[q.project].documents[q.document].classes[q.cls])
    ensures DocumentHasCandidate(s.projects[q.project].documents[q.document])
    ensures ProjectHasCandidate(s.projects[q.project])
    ensures HasCandidate(s)
  {
  }

  lemma HasCandidateIffSomePosition(s: Solution)
    ensures HasCandidate(s) <==> exists p :: IsCandidateAt(s, p)
  {
    if HasCandidate(s) {
      var i :| 0 <= i < |s.projects| && ProjectHasCandidate(s.projects[i]);
      var j :| 0 <= j < |s.projects[i].documents| && DocumentHasCandidate(s.projects[i].documents[j]);
      var k :| 0 <= k < |s.projects[i].documents[j].classes| && ClassHasCandidate(s.projects[i].documents[j].classes[k]);
      var m :| 0 <= m < |s.projects[i].documents[j].classes[k].members| && IsCandidate(s.projects[i].documents[j].classes[k].members[m]);
      assert IsCandidateAt(s, FieldPosition(i, j, k, m));
    }
    forall p | IsCandidateAt(s, p) ensures HasCandidate(s) {
      CandidateWitness(s, p);
    }
  }

  /** No candidate lies in an earlier project, document, class or member slot. */
  ghost predicate NoEarlierCandidate(s: Solution, p: FieldPosition)
    requires ValidPosition(s, p)
  {
    var project := s.projects[p.project];
    var document := project.documents[p.document];
    var cls := document.classes[p.cls];
    && (forall i | 0 <= i < p.project :: !ProjectHasCandidate(s.projects[i]))
    && (forall j | 0 <= j < p.document :: !DocumentHasCandidate(project.documents[j]))
    && (forall k | 0 <= k < p.cls :: !ClassHasCandidate(document.classes[k]))
    && (forall m | 0 <= m < p.member :: !IsCandidate(cls.members[m]))
  }

  /** The first qualifying member of a class. */
  function FirstInClass(c: ClassSymbol): (r: Option<nat>)
    ensures r.None? <==> !ClassHasCandidate(c)
    ensures r.Some? ==> r.value < |c.members| && IsCandidate(c.members[r.value])
                        && forall m | 0 <= m < r.value :: !IsCandidate(c.members[m])
  {
    Linq.FirstIndex(c.members, IsCandidate)
  }

  /** The first qualifying (class, member) of a document. */
  function FirstInDocument(d: Document): (r: Option<(nat, nat)>)
    ensures r.None? <==> !DocumentHasCandidate(d)
    ensures r.Some? ==> r.value.0 < |d.classes| && FirstInClass(d.classes[r.value.0]) == Some(r.value.1)
                        && forall k | 0 <= k < r.value.0 :: !ClassHasCandidate(d.classes[k])
  {
    var k :- Linq.FirstIndex(d.classes, ClassHasCandidate);
    Some((k, FirstInClass(d.classes[k]).value))
  }

  /** The first qualifying (document, class, member) of a project. */
  function FirstInProject(p: Project): (r: Option<(nat, nat, nat)>)
    ensures r.None? <==> !ProjectHasCandidate(p)
    ensures r.Some? ==> r.value.0 < |p.documents| && FirstInDocument(p.documents[r.value.0]) == Some((r.value.1, r.value.2))
                        && forall j | 0 <= j < r.value.0 :: !DocumentHasCandidate(p.documents[j])
  {
    var j :- Linq.FirstIndex(p.documents, DocumentHasCandidate);
    var inDocument := FirstInDocument(p.documents[j]).value;
    Some((j, inDocument.0, inDocument.1))
  }

  /** `FirstOrDefault()` of the lazy query: the position of the first candidate. */
  function FirstCandidate(s: Solution): (r: Option<FieldPosition>)
    ensures r.None? <==> !HasCandidate(s)
    ensures r.Some? ==> IsCandidateAt(s, r.value) && NoEarlierCandidate(s, r.value)
  {
    var i :- Linq.FirstIndex(s.projects, ProjectHasCandidate);
    var inProject := FirstInProject(s.projects[i]).value;
    Some(FieldPosition(i, inProject.0, inProject.1, inProject.2))
  }

  /** The chosen candidate precedes every other candidate in enumeration order. */
  lemma {:induction false} FirstCandidateIsFirst(s: Solution)
    requires FirstCandidate(s).Some?
    ensures forall q | IsCandidateAt(s, q) :: !Before(q, FirstCandidate(s).value)
  {
    var p := FirstCandidate(s).value;
    forall q | IsCandidateAt(s, q) ensures !Before(q, p) {
      CandidateWitness(s, q);
    }
  }

  // ----- One rename -----

  ghost predicate SameShape(s: Solution, t: Solution)
  {
    forall q :: ValidPosition(s, q) <==> ValidPosition(t, q)
  }

  /** `t` is `s` with the one field at `p` renamed to `newName`. */
  ghost predicate RenamedOnly(s: Solution, t: Solution, p: FieldPosition, newName: string)
  {
    && SameShape(s, t)
    && ValidPosition(s, p) && ValidPosition(t, p)
    && MemberAt(s, p).FieldSymbol?
    && MemberAt(t, p) == FieldSymbol(newName, MemberAt(s, p).isImplicitlyDeclared)
    && forall q | ValidPosition(s, q) && q != p :: MemberAt(t, q) == MemberAt(s, q)
  }

  function RenameField(m: MemberSymbol, newName: string): MemberSymbol
    requires m.FieldSymbol?
  {
    FieldSymbol(newName, m.isImplicitlyDeclared)
  }

  /** `Renamer.RenameSymbolAsync(solution, field, newName, ...)`, with the
      field's references identified with the field itself. */
  function RenameAt(s: Solution, p: FieldPosition, newName: string): (r: Solution)
    requires ValidPosition(s, p) && MemberAt(s, p).FieldSymbol?
    ensures RenamedOnly(s, r, p, newName)
  {
    var project := s.projects[p.project];
    var document := project.documents[p.document];
    var cls := document.classes[p.cls];
    var cls' := ClassSymbol(cls.members[p.member := RenameField(cls.members[p.member], newName)]);
    var document' := Document(document.classes[p.cls := cls']);
    var project' := Project(project.documents[p.document := document']);
    Solution(s.projects[p.project := project'])
  }

  /** `RenameOneSymbol`: `(false, solution)` when no field qualifies, else
      `(true, solution')` where only the first candidate lost its first character. */
  function RenameOneSymbol(s: Solution): (r: (bool, Solution))
    ensures !r.0 <==> !HasCandidate(s)
    ensures !r.0 ==> r.1 == s
    ensures r.0 ==> FirstCandidate(s).Some?
                    && RenamedOnly(s, r.1, FirstCandidate(s).value, NewName(MemberAt(s, FirstCandidate(s).value).name))
  {
    match FirstCandidate(s)
    case None => (false, s)
    case Some(p) => (true, RenameAt(s, p, NewName(MemberAt(s, p).name)))
  }

  // ----- Termination measure -----

  function Weight(m: MemberSymbol): nat
  {
    if m.FieldSymbol? && !m.isImplicitlyDeclared then LeadingUnderscores(m.name) else 0
  }

  function ClassTotal(c: ClassSymbol): nat { Sum(c.members, Weight) }
  function DocumentTotal(d: Document): nat { Sum(d.classes, ClassTotal) }
  function ProjectTotal(p: Project): nat { Sum(p.documents, DocumentTotal) }

  /** The total number of leading underscores over all source-declared fields. */
  function Total(s: Solution): nat { Sum(s.projects, ProjectTotal) }

  /** Each rename removes exactly one leading underscore from the total. */
  lemma {:induction false} RenameDecreasesTotal(s: Solution, p: FieldPosition)
    requires IsCandidateAt(s, p)
    ensures Total(RenameAt(s, p, NewName(MemberAt(s, p).name))) + 1 == Total(s)
  {
    var newName := NewName(MemberAt(s, p).name);
    var project := s.projects[p.project];
    var document := project.documents[p.document];
    var cls := document.classes[p.cls];
    var field' := RenameField(cls.members[p.member], newName);
    var cls' := ClassSymbol(cls.members[p.member := field']);
    var document' := Document(document.classes[p.cls := cls']);
    var project' := Project(project.documents[p.document := document']);
    assert Weight(field') + 1 == Weight(cls.members[p.member]);
    SumUpdate(cls.members, p.member, field', Weight);
    SumUpdate(document.classes, p.cls, cls', ClassTotal);
    SumUpdate(project.documents, p.document, document', DocumentTotal);
    SumUpdate(s.projects, p.project, project', ProjectTotal);
  }

  lemma ClassTotalZero(c: ClassSymbol)
    ensures ClassTotal(c) == 0 <==> !ClassHasCandidate(c)
  {
    SumZero(c.members, Weight);
  }

  lemma DocumentTotalZero(d: Document)
    ensures DocumentTotal(d) == 0 <==> !DocumentHasCandidate(d)
  {
    SumZero(d.classes, ClassTotal);
    forall k | 0 <= k < |d.classes| ensures ClassTotal(d.classes[k]) == 0 <==> !ClassHasCandidate(d.classes[k]) {
      ClassTotalZero(d.classes[k]);
    }
  }

  lemma ProjectTotalZero(p: Project)
    ensures ProjectTotal(p) == 0 <==> !ProjectHasCandidate(p)
  {
    SumZero(p.documents, DocumentTotal);
    forall j | 0 <= j < |p.documents| ensures DocumentTotal(p.documents[j]) == 0 <==> !DocumentHasCandidate(p.documents[j]) {
      DocumentTotalZero(p.documents[j]);
    }
  }

  /** The measure vanishes exactly when no field qualifies for renaming. */
  lemma {:induction false} TotalZeroIffNoCandidate(s: Solution)
    ensures Total(s) == 0 <==> !HasCandidate(s)
  {
    SumZero(s.projects, ProjectTotal);
    forall i | 0 <= i < |s.projects| ensures ProjectTotal(s.projects[i]) == 0 <==> !ProjectHasCandidate(s.projects[i]) {
      ProjectTotalZero(s.projects[i]);
    }
  }

  // ----- The fixpoint -----

  function NormalizeMember(m: MemberSymbol): (r: MemberSymbol)
    ensures !IsCandidate(r)
  {
    if m.FieldSymbol? && !m.isImplicitlyDeclared then FieldSymbol(StripLeadingUnderscores(m.name), false) else m
  }

  function NormalizeClass(c: ClassSymbol): (r: ClassSymbol)
    ensures !ClassHasCandidate(r)
  {
    ClassSymbol(Map(c.members, NormalizeMember))
  }

  function NormalizeDocument(d: Document): (r: Document)
    ensures !DocumentHasCandidate(r)
  {
    Document(Map(d.classes, NormalizeClass))
  }

  function NormalizeProject(p: Project): (r: Project)
    ensures !ProjectHasCandidate(r)
  {
    Project(Map(p.documents, NormalizeDocument))
  }

  /** What the rename loop converges to: every source-declared field with
      all its leading underscores removed, everything else as it was. */
  function Normalized(s: Solution): (r: Solution)
    ensures !HasCandidate(r)
  {
    Solution(Map(s.projects, NormalizeProject))
  }

  /** A rename step does not change where the loop is heading. */
  lemma {:induction false} RenamePreservesNormalized(s: Solution, p: FieldPosition)
    requires IsCandidateAt(s, p)
    ensures Normalized(RenameAt(s, p, NewName(MemberAt(s, p).name))) == Normalized(s)
  {
    var newName := NewName(MemberAt(s, p).name);
    var project := s.projects[p.project];
    var document := project.documents[p.document];
    var cls := document.classes[p.cls];
    var field' := RenameField(cls.members[p.member], newName);
    var cls' := ClassSymbol(cls.members[p.member := field']);
    var document' := Document(document.classes[p.cls := cls']);
    var project' := Project(project.documents[p.document := document']);
    assert NormalizeMember(field') == NormalizeMember(cls.members[p.member]);
    MapUpdateSame(cls.members, p.member, field', NormalizeMember);
    MapUpdateSame(document.classes, p.cls, cls', NormalizeClass);
    MapUpdateSame(project.documents, p.document, document', NormalizeDocument);
    MapUpdateSame(s.projects, p.project, project', NormalizeProject);
  }

  lemma ClassWithoutCandidateIsNormal(c: ClassSymbol)
    requires !ClassHasCandidate(c)
    ensures NormalizeClass(c) == c
  {
    MapFixed(c.members, NormalizeMember);
  }

  lemma DocumentWithoutCandidateIsNormal(d: Document)
    requires !DocumentHasCandidate(d)
    ensures NormalizeDocument(d) == d
  {
    forall k | 0 <= k < |d.classes| ensures NormalizeClass(d.classes[k]) == d.classes[k] {
      ClassWithoutCandidateIsNormal(d.classes[k]);
    }
    MapFixed(d.classes, NormalizeClass);
  }

  lemma ProjectWithoutCandidateIsNormal(p: Project)
    requires !ProjectHasCandidate(p)
    ensures NormalizeProject(p) == p
  {
    forall j | 0 <= j < |p.documents| ensures NormalizeDocument(p.documents[j]) == p.documents[j] {
      DocumentWithoutCandidateIsNormal(p.documents[j]);
    }
    MapFixed(p.documents, NormalizeDocument);
  }

  /** A solution in which no field qualifies is its own normal form. */
  lemma {:induction false} NoCandidateIsNormal(s: Solution)
    requires !HasCandidate(s)
    ensures Normalized(s) == s
  {
    forall i | 0 <= i < |s.projects| ensures NormalizeProject(s.projects[i]) == s.projects[i] {
      ProjectWithoutCandidateIsNormal(s.projects[i]);
    }
    MapFixed(s.projects, NormalizeProject);
  }

  /** The `while (changedSolution.Item1)` loop of `Do`: it stops exactly
      when a scan finds no candidate, having renamed once per leading
      underscore. */
  method RenameAll(solution: Solution) returns (final: Solution, renames: nat)
    ensures final == Normalized(solution)
    ensures !HasCandidate(final)
    ensures renames == Total(solution)
    ensures !HasCandidate(solution) ==> final == solution && renames == 0
  {
    var changed := true;
    var current := solution;
    renames := 0;
    while changed
      invariant Normalized(current) == Normalized(solution)
      invariant renames + Total(current) == Total(solution)
      invariant !changed ==> !HasCandidate(current)
      decreases Total(current) + (if changed then 1 else 0)
    {
      var step := RenameOneSymbol(current);
      if step.0 {
        var p := FirstCandidate(current).value;
        RenameDecreasesTotal(current, p);
        RenamePreservesNormalized(current, p);
        renames := renames + 1;
      }
      changed, current := step.0, step.1;
    }
    NoCandidateIsNormal(current);
    final := current;
    TotalZeroIffNoCandidate(final);
    TotalZeroIffNoCandidate(solution);
    if !HasCandidate(solution) {
      NoCandidateIsNormal(solution);
    }
  }

  /** The workspace the solution was opened from. `TryApplyChanges`
      succeeds when the files can be written, which is given as a parameter. */
  class Workspace {
    var currentSolution: Solution
    var appliedChanges: nat

    constructor (solution: Solution)
      ensures currentSolution == solution && appliedChanges == 0
    {
      currentSolution := solution;
      appliedChanges := 0;
    }

    method TryApplyChanges(newSolution: Solution, accepted: bool) returns (ok: bool)
      modifies this
      ensures ok == accepted
      ensures currentSolution == (if accepted then newSolution else old(currentSolution))
      ensures appliedChanges == old(appliedChanges) + 1
    {
      ok := accepted;
      if accepted {
        currentSolution := newSolution;
      }
      appliedChanges := appliedChanges + 1;
    }
  }

  /** `Do`: run the rename loop in memory, then apply the result to the
      workspace exactly once. */
  method Do(workspace: Workspace, diskAccepts: bool) returns (applied: bool)
    modifies workspace
    ensures applied == diskAccepts
    ensures workspace.appliedChanges == old(workspace.appliedChanges) + 1
    ensures workspace.currentSolution
            == (if applied then Normalized(old(workspace.currentSolution)) else old(workspace.currentSolution))
  {
    var final, renames := RenameAll(workspace.currentSolution);
    applied := workspace.TryApplyChanges(final, diskAccepts);
  }
}
