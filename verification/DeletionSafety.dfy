/** What every run of the deletion protocol keeps, wherever it crashes and restarts. */
module DeletionSafety {
  import opened DeletionProtocol

  /** External cleanup has reported success while every row was still there. */
  ghost predicate CleanupPassed(owned: seq<CompanyId>, first: Rows, d: Durable) {
    && d.status == ExternalCleanup
    && d.revoked
    && d.rows == first
    && d.cleanup.completed && Thorough(d.cleanup)
    && LogSound(owned, first, d)
  }

  ghost predicate PassedBefore(owned: seq<CompanyId>, ds: seq<Durable>, k: nat)
    requires k <= |ds| && ds != []
  {
    exists j | 0 <= j < k :: CleanupPassed(owned, ds[0].rows, ds[j])
  }

  /** From a state in which all rows are there, only one that has passed cleanup leads on to
      the phase that deletes rows, and no row goes on that step. */
  lemma FirstRowStep(owned: seq<CompanyId>, first: Rows, d: Durable, d': Durable)
    requires Sound(owned, first, d) && Step(owned, d, d') && d.rows == first && d.status != PostgresDeletion
    ensures d'.rows == first && (d'.status == PostgresDeletion ==> CleanupPassed(owned, first, d))
  {
  }

  lemma PassedStays(owned: seq<CompanyId>, ds: seq<Durable>, k: nat)
    requires 0 < k <= |ds|
    ensures PassedBefore(owned, ds, k - 1) || CleanupPassed(owned, ds[0].rows, ds[k - 1]) ==> PassedBefore(owned, ds, k)
  {
    if PassedBefore(owned, ds, k - 1) {
      var j :| 0 <= j < k - 1 && CleanupPassed(owned, ds[0].rows, ds[j]);
    }
  }

  lemma {:induction false} RowsWait(owned: seq<CompanyId>, ds: seq<Durable>, k: nat)
    requires IsRun(owned, ds) && Begins(owned, ds[0]) && k < |ds|
    ensures ds[k].rows != ds[0].rows || ds[k].status == PostgresDeletion ==> PassedBefore(owned, ds, k)
  {
    if k > 0 {
      RowsWait(owned, ds, k - 1);
      PassedStays(owned, ds, k);
      if !PassedBefore(owned, ds, k - 1) {
        RunSound(owned, ds, k - 1);
        assert StepTo(owned, ds, k);
        FirstRowStep(owned, ds[0].rows, ds[k - 1], ds[k]);
      }
    }
  }

  /** No company, project, membership, role or user row goes before the sessions were
      revoked and a thorough cleanup succeeded; and while a cleanup is under way every
      row, so every project its filters are built from, still exists. */
  lemma NothingGoesEarly(owned: seq<CompanyId>, ds: seq<Durable>, k: nat)
    requires IsRun(owned, ds) && Begins(owned, ds[0]) && k < |ds|
    ensures ds[k].rows != ds[0].rows || ds[k].status == PostgresDeletion ==> PassedBefore(owned, ds, k)
    ensures ds[k].status == ExternalCleanup ==> ds[k].rows == ds[0].rows
  {
    RowsWait(owned, ds, k);
    RunSound(owned, ds, k);
  }

  // ---------------------------------------------------------------- nothing done is undone

  predicate NoMoreThan(d': Durable, d: Durable) {
    && d'.rows.companies <= d.rows.companies
    && d'.rows.projects.Keys <= d.rows.projects.Keys
    && d'.rows.memberships <= d.rows.memberships
    && d'.rows.roles <= d.rows.roles
    && (d'.rows.user ==> d.rows.user)
    && (d.revoked ==> d'.revoked)
    && d'.vectors.Keys == d.vectors.Keys
    && (forall c | c in d.vectors :: d'.vectors[c] <= d.vectors[c])
    && d'.nodes <= d.nodes
    && (d.status in {Completed, Failed} ==> d'.status in {Completed, Failed} && d'.rows == d.rows)
  }

  lemma StepUndoesNothing(owned: seq<CompanyId>, d: Durable, d': Durable)
    requires Step(owned, d, d')
    ensures NoMoreThan(d', d)
  {
    if RowStep(owned, d, d') {
    } else if PurgeStep(owned, d, d') {
    } else {
      assert d'.rows == d.rows && d'.vectors == d.vectors && d'.nodes == d.nodes;
    }
  }

  lemma NoMoreThanIsTransitive(a: Durable, b: Durable, c: Durable)
    requires NoMoreThan(b, a) && NoMoreThan(c, b)
    ensures NoMoreThan(c, a)
  {
  }

  /** However often phases are repeated, every effect of the protocol stays; and once the
      task has completed or failed, the rows never change again. */
  lemma {:induction false} NothingIsUndone(owned: seq<CompanyId>, ds: seq<Durable>, i: nat, k: nat)
    requires IsRun(owned, ds) && i <= k < |ds|
    ensures NoMoreThan(ds[k], ds[i])
    decreases k - i
  {
    if i < k {
      var a, b, c := ds[i], ds[k - 1], ds[k];
      assert StepTo(owned, ds, k);
      assert NoMoreThan(b, a) by { NothingIsUndone(owned, ds, i, k - 1); }
      assert NoMoreThan(c, b) by { StepUndoesNothing(owned, b, c); }
      NoMoreThanIsTransitive(a, b, c);
    }
  }

  /** Repeating a statement that has already had its effect changes no row. */
  lemma RepeatingChangesNothing(owned: seq<CompanyId>, first: Rows, d: Durable, c: CompanyId)
    requires Sound(owned, first, d)
    requires first.memberships <= first.companies
    ensures c !in d.rows.companies ==> WithoutCompany(d.rows, c) == d.rows
    ensures !d.rows.user ==> WithoutUser(d.rows) == d.rows
  {
  }

  lemma PurgingTwice(items: set<Item>, projects: set<ProjectId>, owned: seq<CompanyId>)
    ensures Purged(Purged(items, projects, owned), projects, owned) == Purged(items, projects, owned)
    ensures (forall i | i in items :: !Matches(i, projects, owned)) <==> Purged(items, projects, owned) == items
  {
    if Purged(items, projects, owned) == items {
      forall i | i in items ensures !Matches(i, projects, owned) { assert i in Purged(items, projects, owned); }
    }
  }

  lemma OnlyRowStepsMoveRows(owned: seq<CompanyId>, d: Durable, d': Durable)
    requires Step(owned, d, d')
    ensures d'.rows == d.rows || RowStep(owned, d, d')
  {
  }

  lemma RowStepWithoutUser(owned: seq<CompanyId>, first: Rows, d: Durable, d': Durable)
    requires RowsSound(owned, first, d.rows) && RowStep(owned, d, d') && !d.rows.user
    ensures d'.rows == d.rows
  {
    if d.companiesDeleted < |owned| {
      assert owned[d.companiesDeleted] !in d.rows.companies;
      assert d.rows.memberships == {};
    }
  }

  lemma StepWithoutUser(owned: seq<CompanyId>, first: Rows, d: Durable, d': Durable)
    requires Sound(owned, first, d) && Step(owned, d, d') && !d.rows.user
    ensures d'.rows == d.rows
  {
    OnlyRowStepsMoveRows(owned, d, d');
    if RowStep(owned, d, d') { RowStepWithoutUser(owned, first, d, d'); }
  }

  lemma NoRowToChange(owned: seq<CompanyId>, ds: seq<Durable>, k: nat)
    requires IsRun(owned, ds) && Begins(owned, ds[0]) && 0 < k < |ds| && !ds[k - 1].rows.user
    ensures ds[k].rows == ds[k - 1].rows
  {
    var d, d' := ds[k - 1], ds[k];
    assert StepTo(owned, ds, k);
    RunSound(owned, ds, k - 1);
    StepWithoutUser(owned, ds[0].rows, d, d');
  }

  /** Once the user row has gone, no row ever changes again: phases run again from there, in
      whole or in part, find nothing to do. */
  lemma {:induction false} RepeatedPhasesChangeNothing(owned: seq<CompanyId>, ds: seq<Durable>, i: nat, k: nat)
    requires IsRun(owned, ds) && Begins(owned, ds[0]) && i <= k < |ds|
    requires !ds[i].rows.user
    ensures ds[k].rows == ds[i].rows
    decreases k - i
  {
    if i < k {
      RepeatedPhasesChangeNothing(owned, ds, i, k - 1);
      NoRowToChange(owned, ds, k);
    }
  }

  // ---------------------------------------------------------------- other tenants' data

  /** By its tags an item is none of the user's: its project, if it has one, is not a project
      of an owned company, and its company, if it has one, is not owned. */
  predicate OfOthers(item: Item, rows: Rows, owned: seq<CompanyId>) {
    && (item.project.Some? && item.project.value in rows.projects ==> rows.projects[item.project.value] !in owned)
    && (item.company.Some? ==> item.company.value !in owned)
  }

  /** What others have in the external stores of one state is still there in another. */
  predicate OthersKept(owned: seq<CompanyId>, first: Rows, d: Durable, d': Durable) {
    && d'.vectors.Keys == d.vectors.Keys
    && (forall c, i | c in d.vectors && i in d.vectors[c] && OfOthers(i, first, owned) :: i in d'.vectors[c])
    && (forall n | n in d.nodes && OfOthers(n, first, owned) :: n in d'.nodes)
  }

  lemma PurgeKeepsOthers(owned: seq<CompanyId>, first: Rows, d: Durable, d': Durable)
    requires Sound(owned, first, d) && PurgeStep(owned, d, d')
    ensures OthersKept(owned, first, d, d')
  {
    forall c, i | c in d.vectors && i in d.vectors[c] && OfOthers(i, first, owned) ensures i in d'.vectors[c] {
      assert PurgedTo(d, owned, d.vectors[c], d'.vectors[c]);
    }
  }

  lemma OtherStepsKeepStores(owned: seq<CompanyId>, d: Durable, d': Durable)
    requires Step(owned, d, d') && !PurgeStep(owned, d, d')
    ensures d'.vectors == d.vectors && d'.nodes == d.nodes
  {
  }

  /** In every run, however often a cleanup is repeated, every vector point and every graph node
      of other tenants stays where it was. */
  lemma {:induction false} OthersLoseNothing(owned: seq<CompanyId>, ds: seq<Durable>, k: nat)
    requires IsRun(owned, ds) && Begins(owned, ds[0]) && k < |ds|
    ensures OthersKept(owned, ds[0].rows, ds[0], ds[k])
  {
    if k > 0 {
      OthersLoseNothing(owned, ds, k - 1);
      RunSound(owned, ds, k - 1);
      assert StepTo(owned, ds, k);
      var first, d, d' := ds[0].rows, ds[k - 1], ds[k];
      if PurgeStep(owned, d, d') { PurgeKeepsOthers(owned, first, d, d'); } else { OtherStepsKeepStores(owned, d, d'); }
    }
  }

  /** What the log says was cleaned holds nothing of the user's any more. */
  predicate CleanedOfUser(owned: seq<CompanyId>, first: Rows, d: Durable) {
    && (forall e | e in d.cleanup.collections && e.Cleaned? ::
          e.collection in d.vectors && forall i | i in d.vectors[e.collection] :: OfOthers(i, first, owned))
    && (d.cleanup.nodesDeleted ==> forall n | n in d.nodes :: OfOthers(n, first, owned))
  }

  /** In every state of every run, a collection logged as cleaned, and the graph once logged as
      deleted, hold others' items only. */
  lemma CleanedMeansOthersOnly(owned: seq<CompanyId>, ds: seq<Durable>, k: nat)
    requires IsRun(owned, ds) && Begins(owned, ds[0]) && k < |ds|
    ensures CleanedOfUser(owned, ds[0].rows, ds[k])
  {
    RunSound(owned, ds, k);
    var first, d := ds[0].rows, ds[k];
    forall e | e in d.cleanup.collections && e.Cleaned?
      ensures e.collection in d.vectors && forall i | i in d.vectors[e.collection] :: OfOthers(i, first, owned)
    {
      assert EntryHolds(d.(rows := first), owned, e);
    }
  }

  // ---------------------------------------------------------------- completion

  predicate AllGone(owned: seq<CompanyId>, rows: Rows) {
    && !rows.user && rows.memberships == {} && rows.roles == {}
    && (forall c | c in owned :: c !in rows.companies)
    && OwnedProjects(rows, owned) == {}
  }

  lemma GoneWithTheUser(owned: seq<CompanyId>, first: Rows, rows: Rows)
    requires RowsSound(owned, first, rows)
    ensures AllGone(owned, rows) <==> !rows.user
  {
  }

  lemma {:induction false} CompletedWithoutFailure(owned: seq<CompanyId>, ds: seq<Durable>, k: nat)
    requires IsRun(owned, ds) && Begins(owned, ds[0]) && k < |ds|
    requires forall i | 0 <= i < k :: ds[i].status != Failed
    ensures ds[k].status == Completed ==> !ds[k].rows.user
  {
    if k > 0 {
      CompletedWithoutFailure(owned, ds, k - 1);
      assert StepTo(owned, ds, k);
    }
  }

  /** A completed deletion has deleted everything exactly when it never was in the status
      `failed` with the user row still there. */
  lemma CompletedMeansAllGone(owned: seq<CompanyId>, ds: seq<Durable>, k: nat)
    requires IsRun(owned, ds) && Begins(owned, ds[0]) && k < |ds|
    requires ds[k].status == Completed
    ensures AllGone(owned, ds[k].rows)
       <==> forall i | 0 <= i < k && ds[i].status == Failed :: !ds[i].rows.user
  {
    RunSound(owned, ds, k);
    GoneWithTheUser(owned, ds[0].rows, ds[k].rows);
    forall i | 0 <= i < k && ds[i].status == Failed ensures ds[i].rows == ds[k].rows {
      NothingIsUndone(owned, ds, i, k);
    }
    if forall i | 0 <= i < k :: ds[i].status != Failed {
      CompletedWithoutFailure(owned, ds, k);
    }
  }

  /** Restarting a failed task: three steps from the beginning it is `completed`, with
      every row in place. */
  lemma FailedTaskReportsCompletion(owned: seq<CompanyId>, d: Durable)
    requires Begins(owned, d)
    ensures var ds := [d, d.(status := SessionInvalidation), d.(status := Failed), d.(status := Completed)];
            IsRun(owned, ds) && ds[3].status == Completed && ds[3].rows == d.rows && !AllGone(owned, ds[3].rows)
  {
  }

  /** The user row outlives every owned company, and goes together with the memberships
      and the roles. */
  lemma UserGoesLast(owned: seq<CompanyId>, ds: seq<Durable>, k: nat)
    requires IsRun(owned, ds) && Begins(owned, ds[0]) && k < |ds|
    ensures (exists c | c in owned :: c in ds[k].rows.companies) ==> ds[k].rows.user
    ensures ds[k].rows.user ==>
              ds[k].rows.roles == ds[0].rows.roles
              && ds[k].rows.memberships == ds[0].rows.memberships * ds[k].rows.companies
    ensures !ds[k].rows.user ==> ds[k].rows.roles == {} && ds[k].rows.memberships == {}
    ensures forall c | c in ds[0].rows.companies && c !in owned :: c in ds[k].rows.companies
  {
    RunSound(owned, ds, k);
  }
}
