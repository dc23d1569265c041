/** Opening the month's budget rows (lib/budget-period-opening.ts). */
module BudgetOpening {
  import opened AddonSettlement
  import opened Options

  const MAX_SAFE_INTEGER := 0x1F_FFFF_FFFF_FFFF

  datatype Candidate = Candidate(branchId: int, organizationId: Option<int>, baselineCents: Option<int>)

  datatype Opening = Opening(organizationId: int, branchId: int, period: string, row: Ledger)

  predicate IsSafe(n: int) { -MAX_SAFE_INTEGER <= n <= MAX_SAFE_INTEGER }

  /** A branch of some organization with a positive baseline. */
  predicate Opens(c: Candidate) {
    && IsSafe(c.branchId) && c.branchId > 0
    && c.organizationId.Some? && IsSafe(c.organizationId.value)
    && c.baselineCents.Some? && IsSafe(c.baselineCents.value) && c.baselineCents.value > 0
  }

  function OpenedRow(baselineCents: int): Ledger {
    Ledger(baselineCents, 0, 0, 0)
  }

  /** `rows` opens each branch without a row once, for the period and at the baseline of its first candidate that
      opens, in the order of those candidates. */
  ghost predicate OpensEachOnce(candidates: seq<Candidate>, existing: set<int>, period: string, rows: seq<Opening>) {
    exists at :: OpensAt(candidates, existing, period, rows, at)
  }

  /** The same, with `at` saying which candidate each row is opened for. */
  ghost predicate OpensAt(candidates: seq<Candidate>, existing: set<int>, period: string, rows: seq<Opening>, at: seq<nat>) {
    && |at| == |rows|
    && (forall i, j :: 0 <= i < j < |at| ==> at[i] < at[j])
    && (forall i :: 0 <= i < |at| ==> at[i] < |candidates| && IsFirst(candidates, at[i], period, rows[i]))
    && (forall i, j :: 0 <= i < j < |rows| ==> rows[i].branchId != rows[j].branchId)
    && (forall b :: (exists r :: r in rows && r.branchId == b) <==> b !in existing && exists c :: c in candidates && Opens(c) && c.branchId == b)
  }

  ghost predicate IsFirst(candidates: seq<Candidate>, k: nat, period: string, r: Opening)
    requires k < |candidates|
  {
    && Opens(candidates[k])
    && r == Opening(candidates[k].organizationId.value, candidates[k].branchId, period, OpenedRow(candidates[k].baselineCents.value))
    && forall j :: 0 <= j < k && Opens(candidates[j]) ==> candidates[j].branchId != r.branchId
  }

  /** A candidate that opens, on a branch not taken, is the first of its branch to. */
  lemma OpensNext(candidates: seq<Candidate>, existing: set<int>, period: string, rows: seq<Opening>, at: seq<nat>, c: Candidate)
    requires OpensAt(candidates, existing, period, rows, at) && Opens(c)
    requires c.branchId !in existing && forall r :: r in rows ==> r.branchId != c.branchId
    ensures OpensAt(candidates + [c], existing, period,
                    rows + [Opening(c.organizationId.value, c.branchId, period, OpenedRow(c.baselineCents.value))], at + [|candidates|])
  {
    var opening := Opening(c.organizationId.value, c.branchId, period, OpenedRow(c.baselineCents.value));
    assert forall j :: 0 <= j < |candidates| ==> candidates[j] in candidates;
    assert IsFirst(candidates + [c], |candidates|, period, opening);
    FirstsStay(candidates, c, period, rows, at);
    assert forall r :: r in rows + [opening] <==> r in rows || r == opening;
    assert forall x :: x in candidates + [c] <==> x in candidates || x == c;
  }

  lemma FirstsStay(candidates: seq<Candidate>, c: Candidate, period: string, rows: seq<Opening>, at: seq<nat>)
    requires |at| == |rows| && forall i :: 0 <= i < |at| ==> at[i] < |candidates| && IsFirst(candidates, at[i], period, rows[i])
    ensures forall i :: 0 <= i < |at| ==> IsFirst(candidates + [c], at[i], period, rows[i])
  {
  }

  /** Any other candidate opens nothing. */
  lemma OpensNothing(candidates: seq<Candidate>, existing: set<int>, period: string, rows: seq<Opening>, at: seq<nat>, c: Candidate)
    requires OpensAt(candidates, existing, period, rows, at)
    requires !Opens(c) || c.branchId in existing || exists r :: r in rows && r.branchId == c.branchId
    ensures OpensAt(candidates + [c], existing, period, rows, at)
  {
    FirstsStay(candidates, c, period, rows, at);
  }

  method BudgetRowsToOpen(candidates: seq<Candidate>, existingBranchIds: set<int>, period: string) returns (rows: seq<Opening>)
    ensures OpensEachOnce(candidates, existingBranchIds, period, rows)
  {
    var taken := existingBranchIds;
    rows := [];
    ghost var at: seq<nat> := [];
    for i := 0 to |candidates|
      invariant taken == existingBranchIds + set r | r in rows :: r.branchId
      invariant OpensAt(candidates[..i], existingBranchIds, period, rows, at)
    {
      var candidate := candidates[i];
      assert candidates[..i + 1] == candidates[..i] + [candidate];
      if !Opens(candidate) || candidate.branchId in taken {
        OpensNothing(candidates[..i], existingBranchIds, period, rows, at, candidate);
      } else {
        OpensNext(candidates[..i], existingBranchIds, period, rows, at, candidate);
      }
      if candidate.branchId in taken { continue; }
      if !IsSafe(candidate.branchId) || candidate.branchId <= 0 { continue; }
      if candidate.organizationId.None? || !IsSafe(candidate.organizationId.value) { continue; }
      if candidate.baselineCents.None? || !IsSafe(candidate.baselineCents.value) || candidate.baselineCents.value <= 0 { continue; }
      taken := taken + {candidate.branchId};
      at := at + [i];
      rows := rows + [Opening(candidate.organizationId.value, candidate.branchId, period, OpenedRow(candidate.baselineCents.value))];
    }
    assert candidates[..|candidates|] == candidates;
  }

  /** Every row opened is at a positive baseline, on a branch with a number, with nothing spent, held or credited. */
  lemma OpenedRowsArePositive(candidates: seq<Candidate>, existing: set<int>, period: string, rows: seq<Opening>, r: Opening)
    requires OpensEachOnce(candidates, existing, period, rows) && r in rows
    ensures r.row.allocatedCents > 0 && r.row.spentCents == r.row.heldCents == r.row.creditedCents == 0
    ensures r.branchId > 0 && r.branchId !in existing && r.period == period
    ensures exists c :: c in candidates && c.branchId == r.branchId && c.organizationId == Some(r.organizationId) && c.baselineCents == Some(r.row.allocatedCents)
  {
    var at :| OpensAt(candidates, existing, period, rows, at);
    var i :| 0 <= i < |rows| && rows[i] == r;
    assert IsFirst(candidates, at[i], period, rows[i]);
    assert candidates[at[i]] in candidates;
  }
}
