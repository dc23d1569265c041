/** The parent and child label of branches (lib/branch-hierarchy.ts, lib/server/branch-hierarchy.ts):
    what an edit plans, the two checks that guard it, and the one-level forest they keep. */
module BranchHierarchy {
  import opened Options

  datatype Role = Standalone | Parent | Child

  datatype Hierarchy = Hierarchy(role: Role, parentBranchId: Option<int>)

  /** A request leaves the parent out, clears it, or names one. */
  datatype ParentInput = Absent | Cleared | Named(id: int)

  datatype Input = Input(role: Option<Role>, parent: ParentInput)

  datatype Refusal =
    | ChildNeedsParent | OnlyChildHasParent | OwnParent
    | ParentNotFound | NotAParent | HasChildren | NoSuchBranch

  datatype Plan =
    | Unchanged
    | Change(next: Hierarchy, demotesParent: bool, checksParent: bool)
    | Refused(why: Refusal)

  function InputError(input: Input): Option<Refusal> {
    var role := input.role.GetOr(Standalone);
    if role.Child? && !input.parent.Named? then Some(ChildNeedsParent)
    else if !role.Child? && input.parent.Named? then Some(OnlyChildHasParent)
    else None
  }

  function HierarchyForNewBranch(input: Input): Hierarchy {
    var role := input.role.GetOr(Standalone);
    Hierarchy(role, if role.Child? && input.parent.Named? then Some(input.parent.id) else None)
  }

  datatype Requested = ToParent(parentBranchId: Option<int>) | NotAllowed(why: Refusal)

  function RequestedParent(branchId: int, role: Role, current: Hierarchy, requested: ParentInput): Requested {
    if !role.Child? then if requested.Named? then NotAllowed(OnlyChildHasParent) else ToParent(None)
    else
      var inherited := if current.role.Child? then current.parentBranchId else None;
      var parent := match requested
        case Absent => inherited
        case Cleared => None
        case Named(id) => Some(id);
      if parent.None? then NotAllowed(ChildNeedsParent)
      else if parent.value == branchId then NotAllowed(OwnParent)
      else ToParent(parent)
  }

  function PlanChange(branchId: int, current: Hierarchy, requested: Input): Plan {
    if requested.role.None? && requested.parent.Absent? then Unchanged
    else
      var role := requested.role.GetOr(current.role);
      match RequestedParent(branchId, role, current, requested.parent)
      case NotAllowed(why) => Refused(why)
      case ToParent(parent) =>
        if role == current.role && parent == current.parentBranchId then Unchanged
        else Change(Hierarchy(role, parent), current.role.Parent? && !role.Parent?, role.Child?)
  }

  // ---- The stored branches ----

  datatype Branch = Branch(organizationId: int, hierarchy: Hierarchy)

  type Branches = map<int, Branch>

  /** One level only: a branch has a parent exactly when it is a child, and the parent is another, a parent, and of its organization. */
  ghost predicate Forest(s: Branches) {
    forall b :: b in s ==> Fits(s, b)
  }

  ghost predicate Fits(s: Branches, b: int)
    requires b in s
  {
    var h := s[b].hierarchy;
    && (h.role.Child? <==> h.parentBranchId.Some?)
    && (h.parentBranchId.Some? ==> CanParent(s, s[b].organizationId, b, h.parentBranchId.value))
  }

  ghost predicate CanParent(s: Branches, organizationId: int, b: int, p: int) {
    p != b && p in s && s[p].hierarchy.role.Parent? && s[p].organizationId == organizationId
  }

  function ParentRefusal(s: Branches, organizationId: int, parentBranchId: int): Option<Refusal> {
    if parentBranchId !in s || s[parentBranchId].organizationId != organizationId then Some(ParentNotFound)
    else if !s[parentBranchId].hierarchy.role.Parent? then Some(NotAParent)
    else None
  }

  predicate HasChildBranches(s: Branches, b: int) {
    exists c :: c in s && s[c].hierarchy.parentBranchId == Some(b)
  }

  /** The guarded edit: what is stored when the plan and its checks allow it, or why not. */
  function PlanUpdate(s: Branches, branchId: int, requested: Input): Plan {
    if requested.role.None? && requested.parent.Absent? then Unchanged
    else if branchId !in s then Refused(NoSuchBranch)
    else
      match PlanChange(branchId, s[branchId].hierarchy, requested)
      case Unchanged => Unchanged
      case Refused(why) => Refused(why)
      case Change(next, demotes, checks) =>
        if demotes && HasChildBranches(s, branchId) then Refused(HasChildren)
        else if checks && next.parentBranchId.Some? then
          match ParentRefusal(s, s[branchId].organizationId, next.parentBranchId.value)
          case Some(why) => Refused(why)
          case None => Change(next, demotes, checks)
        else Change(next, demotes, checks)
  }

  datatype Step =
    | Create(id: int, organizationId: int, input: Input)
    | Edit(id: int, requested: Input)
    | Delete(id: int)

  function Take(s: Branches, step: Step): Branches {
    match step
    case Create(id, organizationId, input) =>
      var h := HierarchyForNewBranch(input);
      if id in s || InputError(input).Some? then s
      else if h.parentBranchId.Some? && ParentRefusal(s, organizationId, h.parentBranchId.value).Some? then s
      else s[id := Branch(organizationId, h)]
    case Edit(id, requested) => (
      match PlanUpdate(s, id, requested)
      case Change(next, _, _) => if id in s then s[id := s[id].(hierarchy := next)] else s
      case _ => s)
    case Delete(id) => if id in s && !HasChildBranches(s, id) then s - {id} else s
  }

  function Run(s: Branches, steps: seq<Step>): Branches
    decreases |steps|
  {
    if steps == [] then s else Take(Run(s, steps[..|steps| - 1]), steps[|steps| - 1])
  }

  // ---- What holds ----

  /** Writing one branch's hierarchy keeps the forest exactly when the branch fits and no child is left under a non-parent. */
  lemma OneBranchWritten(s: Branches, b: int, branch: Branch)
    requires Forest(s) && (b in s ==> s[b].organizationId == branch.organizationId)
    requires b !in s ==> !HasChildBranches(s, b)
    ensures Forest(s[b := branch]) <==>
            Fits(s[b := branch], b) && (branch.hierarchy.role.Parent? || !HasChildBranches(s, b))
  {
    var t := s[b := branch];
    if Forest(t) {
      assert Fits(t, b);
      if HasChildBranches(s, b) {
        var c :| c in s && s[c].hierarchy.parentBranchId == Some(b);
        assert Fits(s, c) && Fits(t, c);
      }
    }
    if Fits(t, b) && (branch.hierarchy.role.Parent? || !HasChildBranches(s, b)) {
      forall c | c in t ensures Fits(t, c) {
        if c != b { assert Fits(s, c); }
      }
    }
  }

  /** The checks a plan asks for are exact: a planned change is refused exactly when storing it would break the forest. */
  lemma ChecksAreExact(s: Branches, branchId: int, requested: Input)
    requires Forest(s) && branchId in s
    requires PlanChange(branchId, s[branchId].hierarchy, requested).Change?
    ensures PlanUpdate(s, branchId, requested).Change? <==>
            Forest(s[branchId := s[branchId].(hierarchy := PlanChange(branchId, s[branchId].hierarchy, requested).next)])
  {
    var next := PlanChange(branchId, s[branchId].hierarchy, requested).next;
    var t := s[branchId := s[branchId].(hierarchy := next)];
    OneBranchWritten(s, branchId, s[branchId].(hierarchy := next));
    assert Fits(s, branchId);
    if HasChildBranches(s, branchId) {
      var c :| c in s && s[c].hierarchy.parentBranchId == Some(branchId);
      assert Fits(s, c);
    }
  }

  lemma NobodyIsUnderAMissingBranch(s: Branches, id: int)
    requires Forest(s) && id !in s
    ensures !HasChildBranches(s, id)
  {
    forall c | c in s ensures s[c].hierarchy.parentBranchId != Some(id) {
      assert Fits(s, c);
    }
  }

  /** A valid request for a new branch is refused exactly when storing it would break the forest. */
  lemma CreationIsExact(s: Branches, id: int, organizationId: int, input: Input)
    requires Forest(s) && id !in s && InputError(input).None?
    ensures id in Take(s, Create(id, organizationId, input)) <==> Forest(s[id := Branch(organizationId, HierarchyForNewBranch(input))])
  {
    NobodyIsUnderAMissingBranch(s, id);
    OneBranchWritten(s, id, Branch(organizationId, HierarchyForNewBranch(input)));
  }

  lemma CreatingKeeps(s: Branches, id: int, organizationId: int, input: Input)
    requires Forest(s) && id !in s
    ensures Forest(Take(s, Create(id, organizationId, input)))
  {
    NobodyIsUnderAMissingBranch(s, id);
    OneBranchWritten(s, id, Branch(organizationId, HierarchyForNewBranch(input)));
  }

  lemma DeletingKeeps(s: Branches, id: int)
    requires Forest(s)
    ensures Forest(Take(s, Delete(id)))
  {
    var t := Take(s, Delete(id));
    forall c | c in t ensures Fits(t, c) {
      assert Fits(s, c) && t[c] == s[c];
    }
  }

  lemma EveryStepKeeps(s: Branches, step: Step)
    requires Forest(s)
    ensures Forest(Take(s, step))
  {
    match step {
      case Create(id, organizationId, input) =>
        if id !in s { CreatingKeeps(s, id, organizationId, input); }
      case Edit(id, requested) =>
        if id in s && PlanUpdate(s, id, requested).Change? { ChecksAreExact(s, id, requested); }
      case Delete(id) => DeletingKeeps(s, id);
    }
  }

  /** Every run of creations, edits and deletions, refused or not, keeps a one-level forest. */
  lemma {:induction false} EveryRunKeepsAForest(steps: seq<Step>)
    ensures Forest(Run(map[], steps))
    decreases |steps|
  {
    if steps != [] {
      EveryRunKeepsAForest(steps[..|steps| - 1]);
      EveryStepKeeps(Run(map[], steps[..|steps| - 1]), steps[|steps| - 1]);
    }
  }

  /** In any state a run reaches, no parent has a parent and no child has a child. */
  lemma OneLevelOnly(steps: seq<Step>, b: int)
    requires b in Run(map[], steps)
    ensures var s := Run(map[], steps);
            && (s[b].hierarchy.parentBranchId.Some? ==>
                  var p := s[b].hierarchy.parentBranchId.value;
                  p in s && p != b && s[p].hierarchy == Hierarchy(Parent, None) && s[p].organizationId == s[b].organizationId)
            && (HasChildBranches(s, b) ==> s[b].hierarchy == Hierarchy(Parent, None))
  {
    var s := Run(map[], steps);
    EveryRunKeepsAForest(steps);
    assert Fits(s, b);
    if s[b].hierarchy.parentBranchId.Some? { assert Fits(s, s[b].hierarchy.parentBranchId.value); }
    if HasChildBranches(s, b) {
      var c :| c in s && s[c].hierarchy.parentBranchId == Some(b);
      assert Fits(s, c);
    }
  }

  /** Sending an applied edit again changes nothing: it is planned as unchanged. */
  lemma RepeatingAnEditIsUnchanged(s: Branches, id: int, requested: Input)
    requires id in s && PlanUpdate(s, id, requested).Change?
    ensures PlanUpdate(Take(s, Edit(id, requested)), id, requested) == Unchanged
    ensures Take(Take(s, Edit(id, requested)), Edit(id, requested)) == Take(s, Edit(id, requested))
  {
  }

  // ---- What a request asks for, and what comes of it ----

  predicate Asks(requested: Input) { requested.role.Some? || requested.parent != Absent }

  /** The role named, or the current one. */
  function RoleAsked(current: Hierarchy, requested: Input): Role {
    if requested.role.Some? then requested.role.value else current.role
  }

  /** The parent named; when none is mentioned a child stays where it is; otherwise none. */
  function ParentAsked(current: Hierarchy, requested: Input): Option<int> {
    if requested.parent.Named? then Some(requested.parent.id)
    else if requested.parent == Absent && RoleAsked(current, requested) == Child && current.role == Child then current.parentBranchId
    else None
  }

  function HierarchyAsked(current: Hierarchy, requested: Input): Hierarchy {
    Hierarchy(RoleAsked(current, requested), ParentAsked(current, requested))
  }

  /** A child with a parent other than itself, or another branch with none. */
  predicate StandsTogether(id: int, h: Hierarchy) {
    if h.role == Child then h.parentBranchId.Some? && h.parentBranchId.value != id else h.parentBranchId == None
  }

  /** An edit is unchanged exactly when it asks for nothing or for what is stored, and otherwise is applied exactly when
      what it asks for stands together and keeps the forest; it leaves the branch with just that, and the others alone. */
  lemma EditsDoWhatTheyAsk(s: Branches, id: int, requested: Input)
    requires Forest(s) && id in s
    ensures var h, asked := s[id].hierarchy, HierarchyAsked(s[id].hierarchy, requested);
            && (PlanUpdate(s, id, requested).Unchanged? <==> !Asks(requested) || asked == h)
            && (PlanUpdate(s, id, requested).Change? <==>
                  Asks(requested) && asked != h && StandsTogether(id, asked) && Forest(s[id := s[id].(hierarchy := asked)]))
            && Take(s, Edit(id, requested)) ==
                 if PlanUpdate(s, id, requested).Change? then s[id := s[id].(hierarchy := asked)] else s
  {
    assert Fits(s, id);
    if PlanChange(id, s[id].hierarchy, requested).Change? {
      ChecksAreExact(s, id, requested);
    }
    PlanIsWhatIsAsked(id, s[id].hierarchy, requested);
  }

  lemma PlanIsWhatIsAsked(id: int, h: Hierarchy, requested: Input)
    requires h.role.Child? <==> h.parentBranchId.Some?
    requires h.parentBranchId != Some(id)
    ensures var asked := HierarchyAsked(h, requested);
            && (PlanChange(id, h, requested).Unchanged? <==> !Asks(requested) || asked == h)
            && (PlanChange(id, h, requested).Change? <==> Asks(requested) && asked != h && StandsTogether(id, asked))
            && (PlanChange(id, h, requested).Change? ==> PlanChange(id, h, requested).next == asked)
  {
  }

  /** A refused edit says why: the first of the reasons, in this order, that holds. */
  lemma RefusalsSayWhy(s: Branches, id: int, requested: Input)
    requires Forest(s) && id in s && PlanUpdate(s, id, requested).Refused?
    ensures var asked, organization := HierarchyAsked(s[id].hierarchy, requested), s[id].organizationId;
            PlanUpdate(s, id, requested).why ==
              if asked.role != Child then (if requested.parent.Named? then OnlyChildHasParent else HasChildren)
              else if asked.parentBranchId == None then ChildNeedsParent
              else if asked.parentBranchId == Some(id) then OwnParent
              else if exists c :: c in s && s[c].hierarchy.parentBranchId == Some(id) then HasChildren
              else if asked.parentBranchId.value !in s || s[asked.parentBranchId.value].organizationId != organization then ParentNotFound
              else NotAParent
  {
    assert Fits(s, id);
    if c :| c in s && s[c].hierarchy.parentBranchId == Some(id) {
      assert Fits(s, c);
    }
  }

  /** A new branch is stored exactly when its role and parent stand together and the parent can be one, and is stored as
      asked; a number already in use, or anything else, stores nothing. */
  lemma CreationsDoWhatTheyAsk(s: Branches, id: int, organizationId: int, input: Input)
    ensures var asked := HierarchyAsked(Hierarchy(Standalone, None), input);
            && (InputError(input) == Some(ChildNeedsParent) <==> asked.role == Child && asked.parentBranchId == None)
            && (InputError(input) == Some(OnlyChildHasParent) <==> asked.role != Child && asked.parentBranchId.Some?)
            && Take(s, Create(id, organizationId, input)) ==
                 if id !in s && (asked.role == Child <==> asked.parentBranchId.Some?)
                    && (asked.parentBranchId.Some? ==>
                          var p := asked.parentBranchId.value;
                          p in s && s[p].hierarchy.role == Parent && s[p].organizationId == organizationId)
                 then s[id := Branch(organizationId, asked)] else s
  {
  }

  /** A branch is deleted exactly when no branch is under it, and nothing else changes; an edit of no branch stores nothing. */
  lemma DeletionsAreExact(s: Branches, id: int)
    ensures Take(s, Delete(id)) == if forall c :: c in s ==> s[c].hierarchy.parentBranchId != Some(id) then s - {id} else s
    ensures forall requested :: id !in s ==>
              && Take(s, Edit(id, requested)) == s
              && PlanUpdate(s, id, requested) == if Asks(requested) then Refused(NoSuchBranch) else Unchanged
  {
    if id !in s { assert s - {id} == s; }
  }
}
