/** The account-deletion protocol as a relation between durable states.

    A `Durable` is everything a crash leaves behind: the committed rows and task, and the
    external stores. A run is a sequence of durable states, each a `Step` after the one
    before. A crash loses only the session of the worker, and a restart goes on from the
    same durable state, so crashes and restarts may fall between any two states of a run. */
module DeletionProtocol {
  import opened Wrappers

  type CompanyId = string
  type ProjectId = string
  type Collection = string

  datatype Status = Pending | SessionInvalidation | ExternalCleanup | PostgresDeletion | Completed | Failed

  /** A vector point or a graph node, by the project and the company it is tagged with. */
  datatype Item = Item(project: Option<ProjectId>, company: Option<CompanyId>)

  datatype CollectionEntry =
    | Cleaned(collection: Collection, projects: set<ProjectId>)
    | Absent(collection: Collection)

  datatype CleanupLog = CleanupLog(
    collections: seq<CollectionEntry>,
    vectorsSkipped: bool,
    nodesDeleted: bool,
    graphSkipped: bool,
    noCompanies: bool,
    completed: bool)

  const EMPTY_LOG := CleanupLog([], false, false, false, false, false)

  const COLLECTIONS: seq<Collection> := ["knowledge_chunks", "expertise_chunks", "entry_chunks", "code_chunks"]

  datatype Rows = Rows(
    companies: set<CompanyId>,
    projects: map<ProjectId, CompanyId>,
    memberships: set<CompanyId>,
    roles: set<string>,
    user: bool)

  datatype Durable = Durable(
    status: Status,
    cleanup: CleanupLog,
    companiesTotal: nat,
    companiesDeleted: nat,
    rows: Rows,
    revoked: bool,
    vectors: map<Collection, set<Item>>,
    nodes: set<Item>)

  // ---------------------------------------------------------------- what the statements do

  function OwnedProjects(rows: Rows, owned: seq<CompanyId>): set<ProjectId> {
    set p | p in rows.projects && rows.projects[p] in owned
  }

  predicate Matches(item: Item, projects: set<ProjectId>, owned: seq<CompanyId>) {
    || (item.project.Some? && item.project.value in projects)
    || (item.company.Some? && item.company.value in owned)
  }

  function Purged(items: set<Item>, projects: set<ProjectId>, owned: seq<CompanyId>): set<Item> {
    set i | i in items && !Matches(i, projects, owned)
  }

  /** Deleting a company cascades to its projects and its memberships. */
  function WithoutCompany(rows: Rows, c: CompanyId): Rows {
    rows.(companies := rows.companies - {c},
          projects := map p | p in rows.projects && rows.projects[p] != c :: rows.projects[p],
          memberships := rows.memberships - {c})
  }

  function WithoutUser(rows: Rows): Rows {
    rows.(memberships := {}, roles := {}, user := false)
  }

  /** What phase 1 must have logged when it reports success. */
  predicate Thorough(log: CleanupLog) {
    || log.noCompanies
    || (&& (log.vectorsSkipped || LoggedUpTo(log, |COLLECTIONS|))
        && (log.nodesDeleted || log.graphSkipped))
  }

  predicate LoggedUpTo(log: CleanupLog, n: nat) {
    && |log.collections| == n <= |COLLECTIONS|
    && forall i | 0 <= i < n :: log.collections[i].collection == COLLECTIONS[i]
  }

  // ---------------------------------------------------------------- the step relation

  predicate EntryHolds(d: Durable, owned: seq<CompanyId>, e: CollectionEntry) {
    match e
    case Absent(c) => c !in d.vectors
    case Cleaned(c, projects) =>
      && projects == OwnedProjects(d.rows, owned)
      && c in d.vectors
      && forall i | i in d.vectors[c] :: !Matches(i, projects, owned)
  }

  predicate CleanupStep(owned: seq<CompanyId>, d: Durable, d': Durable) {
    && d.status == ExternalCleanup
    && (|| (owned == [] && d' == d.(cleanup := d.cleanup.(noCompanies := true, completed := true)))
        || (&& |d'.cleanup.collections| == |d.cleanup.collections| + 1
            && |d.cleanup.collections| < |COLLECTIONS|
            && (var e := d'.cleanup.collections[|d.cleanup.collections|];
                && e.collection == COLLECTIONS[|d.cleanup.collections|]
                && EntryHolds(d, owned, e)
                && d' == d.(cleanup := d.cleanup.(collections := d.cleanup.collections + [e]))))
        || d' == d.(cleanup := d.cleanup.(vectorsSkipped := true))
        || d' == d.(cleanup := d.cleanup.(graphSkipped := true))
        || (&& (forall n | n in d.nodes :: !Matches(n, OwnedProjects(d.rows, owned), owned))
            && d' == d.(cleanup := d.cleanup.(nodesDeleted := true)))
        || (Thorough(d.cleanup) && d' == d.(cleanup := d.cleanup.(completed := true))))
  }

  /** Some of the matching items have gone, and no other. */
  predicate PurgedTo(d: Durable, owned: seq<CompanyId>, before: set<Item>, after: set<Item>) {
    && after <= before
    && forall i | i in before && !Matches(i, OwnedProjects(d.rows, owned), owned) :: i in after
  }

  /** An external store has acted on a purge; that is durable at once, committed or not. */
  predicate PurgeStep(owned: seq<CompanyId>, d: Durable, d': Durable) {
    && d.status == ExternalCleanup
    && d'.vectors.Keys == d.vectors.Keys
    && (forall c | c in d.vectors :: PurgedTo(d, owned, d.vectors[c], d'.vectors[c]))
    && PurgedTo(d, owned, d.nodes, d'.nodes)
    && d' == d.(vectors := d'.vectors, nodes := d'.nodes)
  }

  predicate RowStep(owned: seq<CompanyId>, d: Durable, d': Durable) {
    && d.status == PostgresDeletion
    && (|| (&& d.companiesDeleted < |owned|
            && d' == d.(rows := WithoutCompany(d.rows, owned[d.companiesDeleted]),
                        companiesDeleted := d.companiesDeleted + 1))
        || (d.companiesDeleted == |owned| && d' == d.(rows := WithoutUser(d.rows))))
  }

  predicate StatusStep(owned: seq<CompanyId>, d: Durable, d': Durable) {
    match d'.status
    case Pending => false
    case SessionInvalidation =>
      d.status in {Pending, SessionInvalidation} && d' == d.(status := SessionInvalidation)
    case ExternalCleanup =>
      && ((d.status == SessionInvalidation && d.revoked) || d.status == ExternalCleanup)
      && d' == d.(status := ExternalCleanup, cleanup := EMPTY_LOG)
    case PostgresDeletion =>
      && ((d.status == ExternalCleanup && d.cleanup.completed) || d.status == PostgresDeletion)
      && d' == d.(status := PostgresDeletion, companiesTotal := |owned|, companiesDeleted := 0)
    case Completed =>
      // no guard of the orchestrator looks at `failed`
      && ((d.status == PostgresDeletion && !d.rows.user) || d.status in {Completed, Failed})
      && d' == d.(status := Completed)
    case Failed =>
      && d.status in {SessionInvalidation, ExternalCleanup, PostgresDeletion}
      && d' == d.(status := Failed)
  }

  predicate Step(owned: seq<CompanyId>, d: Durable, d': Durable) {
    || d' == d
    || (d.status == SessionInvalidation && d' == d.(revoked := true))
    || StatusStep(owned, d, d')
    || CleanupStep(owned, d, d')
    || PurgeStep(owned, d, d')
    || RowStep(owned, d, d')
  }

  predicate StepTo(owned: seq<CompanyId>, ds: seq<Durable>, i: int)
    requires 0 < i < |ds|
  {
    Step(owned, ds[i - 1], ds[i])
  }

  predicate IsRun(owned: seq<CompanyId>, ds: seq<Durable>) {
    ds != [] && forall i | 0 < i < |ds| :: StepTo(owned, ds, i)
  }

  lemma RunGoesOn(owned: seq<CompanyId>, ds: seq<Durable>, d: Durable)
    requires IsRun(owned, ds) && Step(owned, ds[|ds| - 1], d)
    ensures IsRun(owned, ds + [d])
  {
    forall i | 0 < i < |ds + [d]| ensures StepTo(owned, ds + [d], i) {
      if i < |ds| { assert StepTo(owned, ds, i); }
    }
  }

  /** The deletion record as the deletion request creates it. */
  predicate Begins(owned: seq<CompanyId>, d: Durable) {
    && d.status == Pending
    && d.rows.user
    && d.rows.memberships <= d.rows.companies
    && (forall c | c in owned :: c in d.rows.companies)
    && (forall p | p in d.rows.projects :: d.rows.projects[p] in d.rows.companies)
    && d.cleanup == EMPTY_LOG && !d.revoked
  }

  // ---------------------------------------------------------------- invariants

  /** All rows that are left are as they were, only owned companies have gone, with what
      hangs off them, and the user with memberships and roles goes last and at once. */
  ghost predicate RowsSound(owned: seq<CompanyId>, first: Rows, rows: Rows) {
    && rows.companies <= first.companies
    && (forall c | c in first.companies && c !in owned :: c in rows.companies)
    && rows.projects == (map p | p in first.projects && first.projects[p] in rows.companies :: first.projects[p])
    && (if rows.user
        then rows.memberships == first.memberships * rows.companies && rows.roles == first.roles
        else rows.memberships == {} && rows.roles == {} && forall c | c in owned :: c !in rows.companies)
  }

  /** Every entry of the log is still true: what it says was purged is gone. */
  ghost predicate LogSound(owned: seq<CompanyId>, first: Rows, d: Durable) {
    && LoggedUpTo(d.cleanup, |d.cleanup.collections|)
    && (forall e | e in d.cleanup.collections :: EntryHolds(d.(rows := first), owned, e))
    && (d.cleanup.nodesDeleted ==> forall n | n in d.nodes :: !Matches(n, OwnedProjects(first, owned), owned))
    && (d.cleanup.noCompanies ==> owned == [])
    && (d.cleanup.completed ==> Thorough(d.cleanup))
  }

  ghost predicate Sound(owned: seq<CompanyId>, first: Rows, d: Durable) {
    && RowsSound(owned, first, d.rows)
    && LogSound(owned, first, d)
    && (d.status in {Pending, SessionInvalidation, ExternalCleanup} ==> d.rows == first)
    && (d.status in {ExternalCleanup, PostgresDeletion} || d.rows != first ==> d.revoked)
    && (d.status == PostgresDeletion || d.rows != first ==> d.cleanup.completed)
    && (d.status == PostgresDeletion ==>
          && d.companiesTotal == |owned| && d.companiesDeleted <= |owned|
          && forall i | 0 <= i < d.companiesDeleted :: owned[i] !in d.rows.companies)
  }

  lemma BeginsSound(owned: seq<CompanyId>, d: Durable)
    requires Begins(owned, d)
    ensures Sound(owned, d.rows, d)
  {
  }

  lemma RowStepSound(owned: seq<CompanyId>, first: Rows, d: Durable, d': Durable)
    requires Sound(owned, first, d) && RowStep(owned, d, d')
    ensures Sound(owned, first, d')
  {
  }

  lemma PurgeStepSound(owned: seq<CompanyId>, first: Rows, d: Durable, d': Durable)
    requires Sound(owned, first, d) && PurgeStep(owned, d, d')
    ensures Sound(owned, first, d')
  {
  }

  lemma CleanupStepSound(owned: seq<CompanyId>, first: Rows, d: Durable, d': Durable)
    requires Sound(owned, first, d) && CleanupStep(owned, d, d')
    ensures Sound(owned, first, d')
  {
    assert d.(rows := first) == d;
    forall e | e in d'.cleanup.collections ensures EntryHolds(d'.(rows := first), owned, e) {
      assert EntryHolds(d, owned, e);
    }
  }

  lemma StatusStepSound(owned: seq<CompanyId>, first: Rows, d: Durable, d': Durable)
    requires Sound(owned, first, d) && StatusStep(owned, d, d')
    ensures Sound(owned, first, d')
  {
  }

  lemma RevokeStepSound(owned: seq<CompanyId>, first: Rows, d: Durable)
    requires Sound(owned, first, d)
    ensures Sound(owned, first, d.(revoked := true))
  {
  }

  lemma StepSound(owned: seq<CompanyId>, first: Rows, d: Durable, d': Durable)
    requires Sound(owned, first, d) && Step(owned, d, d')
    ensures Sound(owned, first, d')
  {
    if d' == d.(revoked := true) {
      RevokeStepSound(owned, first, d);
    } else if RowStep(owned, d, d') {
      RowStepSound(owned, first, d, d');
    } else if CleanupStep(owned, d, d') {
      CleanupStepSound(owned, first, d, d');
    } else if PurgeStep(owned, d, d') {
      PurgeStepSound(owned, first, d, d');
    } else if d' != d {
      StatusStepSound(owned, first, d, d');
    }
  }

  lemma {:induction false} RunSound(owned: seq<CompanyId>, ds: seq<Durable>, k: nat)
    requires IsRun(owned, ds) && Begins(owned, ds[0]) && k < |ds|
    ensures Sound(owned, ds[0].rows, ds[k])
  {
    if k == 0 {
      BeginsSound(owned, ds[0]);
    } else {
      RunSound(owned, ds, k - 1);
      assert StepTo(owned, ds, k);
      StepSound(owned, ds[0].rows, ds[k - 1], ds[k]);
    }
  }
}
